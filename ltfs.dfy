// The direct-access LTFS layer (`src/ltfs.rs`): the space check before a write,
// range reads over a file's extents, the block arithmetic of one extent read and
// the search for the end of an index in a buffer.

module Ltfs {
  import opened Wrappers
  import opened Bytes
  import opened Strings
  import opened IndexTypes
  import opened IndexTree
  import LtfsUtils

  /** The LTO block size all extent arithmetic is done in. */
  const BLOCK: nat := 65536

  // ---------------------------------------------------------------------------
  // check_available_space

  /** The request plus the 10% safety margin, with the u64 sum wrapping. */
  function WithMargin(required: u64): u64
  {
    AsU64(required + required / 10)
  }

  /**
   * `check_available_space`: a failed capacity query is passed on; otherwise the
   * answer is whether the remaining capacity covers the request and its margin.
   */
  function CheckAvailableSpace(remaining: Result<u64>, required: u64): (r: Result<bool>)
    ensures remaining.Err? ==> r.Err? && r.error == remaining.error
    ensures remaining.Ok? ==> r.Ok? && (r.value <==> remaining.value >= WithMargin(required))
  {
    var available :- remaining;
    Ok(available >= WithMargin(required))
  }

  /**
   * Below the wrap-around point the check passes exactly when the remaining
   * capacity covers the request plus a tenth of it, so in particular the request.
   */
  lemma SpaceCheckCoversRequest(available: u64, required: u64)
    requires required + required / 10 < U64_LIMIT
    ensures CheckAvailableSpace(Ok(available), required) == Ok(true)
      <==> available >= required + required / 10
    ensures CheckAvailableSpace(Ok(available), required) == Ok(true) ==> available >= required
  {
  }

  // ---------------------------------------------------------------------------
  // read_extent_data

  /** What the drive reports for one read: the block count and the bytes it transferred. */
  datatype BlockReply = BlockReply(blocksRead: u32, data: seq<byte>)

  /**
   * Locate to (partition, block) and read that many blocks. Failures of either
   * step come back as errors.
   */
  type BlockReader = (nat, u64, u32) -> Result<BlockReply>

  /** The partition letter of an extent as a partition number. */
  function PartitionId(letter: string): (r: Option<nat>)
    ensures r == Some(0) <==> letter == "a" || letter == "A"
    ensures r == Some(1) <==> letter == "b" || letter == "B"
    ensures r.Some? ==> r.value <= 1
  {
    if letter == "a" || letter == "A" then Some(0)
    else if letter == "b" || letter == "B" then Some(1)
    else None
  }

  /** A zeroed buffer of n bytes with the transferred data copied to its front. */
  function Fill(data: seq<byte>, n: nat): (b: seq<byte>)
    ensures |b| == n
    ensures forall i :: 0 <= i < n ==> b[i] == if i < |data| then data[i] else 0
  {
    if |data| >= n then data[..n] else data + seq(n - |data|, _ => 0)
  }

  /** Where an extent read lands: first block, offset in that block, blocks to read. */
  datatype Span = Span(startBlock: u64, blockOffset: nat, blocksNeeded: nat)

  function SpanOf(e: Extent, offset: u64, length: u64): (s: Span)
    ensures s.blockOffset < BLOCK
    ensures s.blockOffset + length < U64_LIMIT ==>
      s.blocksNeeded * BLOCK <= s.blockOffset + length + BLOCK - 1
  {
    var sum := AsU64(e.byteOffset + offset);
    var blockOffset := sum % BLOCK;
    Span(AsU64(e.startBlock + sum / BLOCK), blockOffset, AsU64(blockOffset + length + BLOCK - 1) / BLOCK)
  }

  /**
   * Without wrap-around the span starts at the byte the extent places at `offset`
   * and its blocks are the fewest that cover the requested bytes.
   */
  lemma SpanCovers(e: Extent, offset: u64, length: u64)
    requires e.byteOffset + offset + length + BLOCK <= U64_LIMIT
    requires e.startBlock + (e.byteOffset + offset) / BLOCK < U64_LIMIT
    ensures var s := SpanOf(e, offset, length);
      && s.startBlock * BLOCK + s.blockOffset == e.startBlock * BLOCK + e.byteOffset + offset
      && s.blockOffset + length <= s.blocksNeeded * BLOCK
      && (s.blocksNeeded == 0 || (s.blocksNeeded - 1) * BLOCK < s.blockOffset + length)
      && s.blockOffset <= e.byteOffset + offset
  {
    var s := SpanOf(e, offset, length);
    var sum: nat := e.byteOffset + offset;
    DivBounds(sum, BLOCK);
    assert s.blockOffset == sum % BLOCK && s.startBlock == e.startBlock + sum / BLOCK by {
      assert AsU64(sum) == sum;
    }
    var x: nat := s.blockOffset + length;
    assert s.blocksNeeded == (x + BLOCK - 1) / BLOCK by {
      assert AsU64(x + BLOCK - 1) == x + BLOCK - 1;
    }
    CeilBlocks(x);
  }

  /** (x + BLOCK - 1) / BLOCK blocks are the fewest that hold x bytes. */
  lemma CeilBlocks(x: nat)
    ensures var n := (x + BLOCK - 1) / BLOCK;
      x <= n * BLOCK && (n == 0 || (n - 1) * BLOCK < x)
  {
    DivBounds(x + BLOCK - 1, BLOCK);
  }

  /** Quotient and remainder of a division by a positive divisor. */
  lemma DivBounds(x: nat, d: nat)
    requires d > 0
    ensures x == (x / d) * d + x % d && 0 <= x % d < d
    ensures (x / d) * d <= x < (x / d) * d + d
  {
  }

  /**
   * `read_extent_data`: read `length` bytes starting `offset` bytes into extent e.
   * The single requirement is that the in-block offset plus the length fits in
   * the machine word; beyond it the source's slice would panic.
   */
  function ReadExtentData(reader: BlockReader, e: Extent, offset: u64, length: u64): (r: Result<seq<byte>>)
    requires SpanOf(e, offset, length).blockOffset + length < U64_LIMIT
    ensures r.Ok? ==> |r.value| == length
    ensures PartitionId(e.partition).None? ==>
      r == Fail(FileOperation, "Unknown partition: " + e.partition)
    ensures r.Ok? ==> PartitionId(e.partition).Some?
    ensures r.Ok? ==> (
      var s := SpanOf(e, offset, length);
      var reply := reader(PartitionId(e.partition).value, s.startBlock, AsU32(s.blocksNeeded));
      reply.Ok? && reply.value.blocksRead == AsU32(s.blocksNeeded))
  {
    var s := SpanOf(e, offset, length);
    var endOffset := s.blockOffset + length;
    match PartitionId(e.partition)
    case None => Fail(FileOperation, "Unknown partition: " + e.partition)
    case Some(p) =>
      var reply :- reader(p, s.startBlock, AsU32(s.blocksNeeded));
      if reply.blocksRead != AsU32(s.blocksNeeded) then
        Fail(Scsi, "Expected to read " + NatToDecimal(s.blocksNeeded) + " blocks, but read " + NatToDecimal(reply.blocksRead as nat))
      else
        var buffer := Fill(reply.data, s.blocksNeeded * BLOCK);
        if endOffset > |buffer| then Fail(FileOperation, "Read beyond buffer bounds")
        else Ok(buffer[s.blockOffset..endOffset])
  }

  /**
   * Unless the block count wrapped, an extent read succeeds exactly when the
   * partition letter is known and the drive reads every block asked for; the
   * bytes are then the requested run of the buffer the drive filled.
   */
  lemma ExtentReadSucceeds(reader: BlockReader, e: Extent, offset: u64, length: u64)
    requires SpanOf(e, offset, length).blockOffset + length + BLOCK <= U64_LIMIT
    ensures var s := SpanOf(e, offset, length);
      var r := ReadExtentData(reader, e, offset, length);
      r.Ok? <==> (PartitionId(e.partition).Some?
        && reader(PartitionId(e.partition).value, s.startBlock, AsU32(s.blocksNeeded)).Ok?
        && reader(PartitionId(e.partition).value, s.startBlock, AsU32(s.blocksNeeded)).value.blocksRead == AsU32(s.blocksNeeded))
    ensures var s := SpanOf(e, offset, length);
      var r := ReadExtentData(reader, e, offset, length);
      r.Ok? ==> r.value == Fill(reader(PartitionId(e.partition).value, s.startBlock, AsU32(s.blocksNeeded)).value.data,
                                s.blocksNeeded * BLOCK)[s.blockOffset..s.blockOffset + length]
  {
    var s := SpanOf(e, offset, length);
    var t := s.blockOffset + length + BLOCK - 1;
    assert t == (t / BLOCK) * BLOCK + t % BLOCK;
  }

  /**
   * The reader plays back a tape image, the byte stream of each partition: asked
   * for n blocks at block b, it returns exactly those whole blocks.
   */
  predicate ReadsImage(reader: BlockReader, image: seq<seq<byte>>)
  {
    forall p: nat, block: u64, n: u32 {:trigger reader(p, block, n)} ::
      p < |image| && (block as nat + n as nat) * BLOCK <= |image[p]| ==>
        reader(p, block, n) == Ok(BlockReply(n, image[p][block as nat * BLOCK..block as nat * BLOCK + n as nat * BLOCK]))
  }

  /** Any tape image can be played back. */
  lemma ImageReaderExists(image: seq<seq<byte>>)
    ensures ReadsImage(ImageReader(image), image)
  {
  }

  function ImageReader(image: seq<seq<byte>>): BlockReader
  {
    (p: nat, block: u64, n: u32) =>
      if p < |image| && (block as nat + n as nat) * BLOCK <= |image[p]| then
        Ok(BlockReply(n, image[p][block as nat * BLOCK..block as nat * BLOCK + n as nat * BLOCK]))
      else
        Fail(Scsi, "read failed")
  }

  /** The image holds every block the read of extent e touches, on a known partition. */
  predicate ImageHolds(image: seq<seq<byte>>, e: Extent, offset: u64, length: u64)
  {
    var s := SpanOf(e, offset, length);
    && e.byteOffset + offset + length + BLOCK <= U64_LIMIT
    && e.startBlock + (e.byteOffset + offset) / BLOCK < U64_LIMIT
    && s.blocksNeeded < U32_LIMIT
    && PartitionId(e.partition).Some? && PartitionId(e.partition).value < |image|
    && (s.startBlock + s.blocksNeeded) * BLOCK <= |image[PartitionId(e.partition).value]|
  }

  /** When the drive fills the whole buffer, the extent read is the requested run of it. */
  lemma ReadOfFullReply(reader: BlockReader, e: Extent, offset: u64, length: u64, data: seq<byte>)
    requires SpanOf(e, offset, length).blockOffset + length + BLOCK <= U64_LIMIT
    requires PartitionId(e.partition).Some?
    requires var s := SpanOf(e, offset, length);
      && |data| == s.blocksNeeded * BLOCK
      && reader(PartitionId(e.partition).value, s.startBlock, AsU32(s.blocksNeeded)) == Ok(BlockReply(AsU32(s.blocksNeeded), data))
    ensures var s := SpanOf(e, offset, length);
      var r := ReadExtentData(reader, e, offset, length);
      r.Ok? && s.blockOffset + length <= |data| && r.value == data[s.blockOffset..s.blockOffset + length]
  {
    ExtentReadSucceeds(reader, e, offset, length);
    assert Fill(data, |data|) == data;
  }

  /**
   * Played back from a tape image, an extent read returns the `length` bytes
   * stored `offset` bytes past the extent's start on its partition.
   */
  lemma ExtentReadFromImage(reader: BlockReader, image: seq<seq<byte>>, e: Extent, offset: u64, length: u64)
    requires ReadsImage(reader, image) && ImageHolds(image, e, offset, length)
    ensures ReadExtentData(reader, e, offset, length).Ok?
    ensures e.startBlock * BLOCK + e.byteOffset + offset + length <= |image[PartitionId(e.partition).value]|
    ensures var at := e.startBlock * BLOCK + e.byteOffset + offset;
      ReadExtentData(reader, e, offset, length).value
        == image[PartitionId(e.partition).value][at..at + length]
  {
    var s := SpanOf(e, offset, length);
    var p := PartitionId(e.partition).value;
    var lo := s.startBlock as nat * BLOCK;
    var n := s.blocksNeeded;
    ImageSpan(image, e, offset, length);
    var data := image[p][lo..lo + n * BLOCK];
    ImageReply(reader, image, p, s.startBlock, AsU32(n));
    ReadOfFullReply(reader, e, offset, length, data);
    SliceOfSlice(image[p], lo, lo + n * BLOCK, s.blockOffset, s.blockOffset + length);
  }

  /** Where the blocks of an extent read lie in the image, and that they are all there. */
  lemma ImageSpan(image: seq<seq<byte>>, e: Extent, offset: u64, length: u64)
    requires ImageHolds(image, e, offset, length)
    ensures var s := SpanOf(e, offset, length);
      var p := PartitionId(e.partition).value;
      && AsU32(s.blocksNeeded) == s.blocksNeeded
      && s.blockOffset + length + BLOCK <= U64_LIMIT
      && s.blockOffset + length <= s.blocksNeeded * BLOCK
      && s.startBlock as nat * BLOCK + s.blocksNeeded * BLOCK <= |image[p]|
      && s.startBlock as nat * BLOCK + s.blockOffset == e.startBlock * BLOCK + e.byteOffset + offset
  {
    SpanCovers(e, offset, length);
  }

  /** A reader that plays back the image returns the whole blocks asked for. */
  lemma ImageReply(reader: BlockReader, image: seq<seq<byte>>, p: nat, block: u64, n: u32)
    requires ReadsImage(reader, image) && p < |image|
    requires block as nat * BLOCK + n as nat * BLOCK <= |image[p]|
    ensures reader(p, block, n) == Ok(BlockReply(n, image[p][block as nat * BLOCK..block as nat * BLOCK + n as nat * BLOCK]))
  {
    assert (block as nat + n as nat) * BLOCK == block as nat * BLOCK + n as nat * BLOCK;
  }

  lemma SliceOfSlice<T>(x: seq<T>, a: nat, b: nat, c: nat, d: nat)
    requires a <= b <= |x| && c <= d <= b - a
    ensures x[a..b][c..d] == x[a + c..a + d]
  {
    forall i | 0 <= i < d - c
      ensures x[a..b][c..d][i] == x[a + c..a + d][i]
    {
      assert x[a..b][c..d][i] == x[a..b][c + i] == x[a + c + i];
    }
  }

  // ---------------------------------------------------------------------------
  // read_file_content

  /** The offset in extent e where the request starting at `start` begins. */
  function ReadStart(e: Extent, start: u64): (rs: u64)
    ensures e.fileOffset + rs == if start > e.fileOffset then start else e.fileOffset
  {
    if start > e.fileOffset then start - e.fileOffset else 0
  }

  /**
   * The offset in extent e where the request ending at `end` stops. An extent that
   * starts at or past the end contributes nothing.
   */
  function ReadEnd(e: Extent, end: u64): (re: u64)
    ensures re <= e.byteCount
    ensures re > 0 ==> e.fileOffset + re <= end
    ensures e.fileOffset < end ==>
      e.fileOffset + re == if e.fileOffset + e.byteCount < end then e.fileOffset + e.byteCount else end
  {
    if end > e.fileOffset then
      (if e.byteCount < end - e.fileOffset then e.byteCount else end - e.fileOffset)
    else 0
  }

  /** The source's end offset: `min(byte_count, end - file_offset)` with the u64 difference wrapping. */
  function ReadEndAsWritten(e: Extent, end: u64): (re: u64)
    ensures re <= e.byteCount
    ensures e.fileOffset <= end ==> re == ReadEnd(e, end)
  {
    var gap := AsU64(end - e.fileOffset);
    if e.byteCount < gap then e.byteCount else gap
  }

  /**
   * An extent of a sparse file starting past the requested end: the source reads
   * the whole extent, ten bytes, for a five-byte request, where nothing lies
   * inside the request.
   */
  lemma ExtentPastEndIsReadWhole()
    ensures var e := Extent("a", 0, 10, 100, 0);
      && ReadStart(e, 0) == 0
      && ReadEndAsWritten(e, 5) == 10
      && ReadEnd(e, 5) == 0
  {
  }

  /** Each extent of the file is short enough for the extent read's word-size requirement. */
  predicate ExtentsFit(es: seq<Extent>)
  {
    forall i :: 0 <= i < |es| ==> es[i].byteCount as nat + BLOCK < U64_LIMIT
  }

  /** The end of extent e in the file, with the u64 sum wrapping. */
  function ExtentEnd(e: Extent): u64
  {
    AsU64(e.fileOffset + e.byteCount)
  }

  /**
   * What extent e contributes to the request [start, end): nothing if it ends
   * before the start or its read range is empty, else the read of that range.
   */
  function PieceOf(reader: BlockReader, e: Extent, start: u64, end: u64): Result<seq<byte>>
    requires e.byteCount as nat + BLOCK < U64_LIMIT
  {
    var rs := ReadStart(e, start);
    var re := ReadEnd(e, end);
    if ExtentEnd(e) <= start || rs >= re then Ok([])
    else
      assert SpanOf(e, rs, re - rs).blockOffset + (re - rs) < U64_LIMIT;
      ReadExtentData(reader, e, rs, re - rs)
  }

  /** Prefix a result's bytes. */
  function Then(prefix: seq<byte>, r: Result<seq<byte>>): Result<seq<byte>>
  {
    if r.Ok? then Ok(prefix + r.value) else r
  }

  /**
   * The loop of `read_file_content` from extent es[0] on, with `pos` the end of the
   * previous extent: it stops once `pos` reaches the requested end and otherwise
   * appends each extent's piece, failing at the first failed read.
   */
  function Content(reader: BlockReader, es: seq<Extent>, start: u64, end: u64, pos: u64): Result<seq<byte>>
    requires ExtentsFit(es)
    decreases |es|
  {
    if es == [] || pos >= end then Ok([])
    else
      var piece :- PieceOf(reader, es[0], start, end);
      Then(piece, Content(reader, es[1..], start, end, ExtentEnd(es[0])))
  }

  /** One turn of the loop: the content from extent i on is its piece followed by the rest. */
  lemma ContentStep(reader: BlockReader, es: seq<Extent>, i: nat, start: u64, end: u64, pos: u64,
                    result: seq<byte>, whole: Result<seq<byte>>)
    requires ExtentsFit(es) && i < |es| && pos < end
    requires ExtentsFit(es[i..]) && whole == Then(result, Content(reader, es[i..], start, end, pos))
    ensures ExtentsFit(es[i + 1..])
    ensures var piece := PieceOf(reader, es[i], start, end);
      && (piece.Err? ==> whole == Err(piece.error))
      && (piece.Ok? ==> whole == Then(result + piece.value, Content(reader, es[i + 1..], start, end, ExtentEnd(es[i]))))
  {
    assert es[i..][1..] == es[i + 1..];
    var rest := Content(reader, es[i + 1..], start, end, ExtentEnd(es[i]));
    var piece := PieceOf(reader, es[i], start, end);
    if rest.Ok? && piece.Ok? {
      assert result + (piece.value + rest.value) == result + piece.value + rest.value;
    }
  }

  /** The end of the requested range: `start + length`, the length defaulting to the rest of the file. */
  function RequestEnd(f: File, start: u64, length: Option<u64>): u64
  {
    var readLength := if length.Some? then length.value else AsU64(f.length - start);
    AsU64(start + readLength)
  }

  /**
   * `read_file_content`: symlinks and files without extents are refused, a start
   * at or past the file length gives no bytes, and otherwise the file's extents
   * are visited in file-offset order.
   */
  method ReadFileContent(reader: BlockReader, f: File, start: u64, length: Option<u64>) returns (r: Result<seq<byte>>)
    requires ExtentsFit(f.extents)
    ensures f.symlink.Some? ==> r == Fail(FileOperation, "Cannot read symlink content")
    ensures f.symlink.None? && f.extents == [] ==> r == Fail(FileOperation, "File has no extent information")
    ensures f.symlink.None? && f.extents != [] && start >= f.length ==> r == Ok([])
    ensures f.symlink.None? && f.extents != [] && start < f.length ==>
      ExtentsFit(SortedExtents(f)) && r == Content(reader, SortedExtents(f), start, RequestEnd(f, start, length), 0)
  {
    if f.symlink.Some? {
      return Fail(FileOperation, "Cannot read symlink content");
    }
    if f.extents == [] {
      return Fail(FileOperation, "File has no extent information");
    }
    var es := SortedExtents(f);
    var end := RequestEnd(f, start, length);
    if start >= f.length {
      return Ok([]);
    }
    SortedFit(f);
    r := ReadExtents(reader, es, start, end);
  }

  /** The extent loop of `read_file_content` over the sorted extents. */
  method ReadExtents(reader: BlockReader, es: seq<Extent>, start: u64, end: u64) returns (r: Result<seq<byte>>)
    requires ExtentsFit(es)
    ensures r == Content(reader, es, start, end, 0)
  {
    ghost var whole := Content(reader, es, start, end, 0);
    var result: seq<byte> := [];
    var pos: u64 := 0;
    var i := 0;
    assert es[0..] == es;
    assert Then([], whole) == whole by {
      if whole.Ok? { assert [] + whole.value == whole.value; }
    }
    while i < |es|
      invariant 0 <= i <= |es| && ExtentsFit(es[i..])
      invariant whole == Then(result, Content(reader, es[i..], start, end, pos))
    {
      if pos >= end {
        break;
      }
      ContentStep(reader, es, i, start, end, pos, result, whole);
      var piece := ExtentPiece(reader, es[i], start, end);
      if piece.Err? {
        return Err(piece.error);
      }
      result := result + piece.value;
      pos := ExtentEnd(es[i]);
      i := i + 1;
    }
    assert result + [] == result;
    return Ok(result);
  }

  /**
   * The body of the extent loop for one extent: extents ending before the start
   * are skipped, and otherwise the part of the extent inside the request is read.
   */
  method ExtentPiece(reader: BlockReader, e: Extent, start: u64, end: u64) returns (piece: Result<seq<byte>>)
    requires e.byteCount as nat + BLOCK < U64_LIMIT
    ensures piece == PieceOf(reader, e, start, end)
  {
    if ExtentEnd(e) <= start {
      return Ok([]);
    }
    var rs := ReadStart(e, start);
    var re := ReadEnd(e, end);
    if rs < re {
      piece := ReadExtentData(reader, e, rs, re - rs);
    } else {
      piece := Ok([]);
    }
  }

  /** Sorting keeps the extents, so it keeps them short enough. */
  lemma SortedFit(f: File)
    requires ExtentsFit(f.extents)
    ensures ExtentsFit(SortedExtents(f))
  {
    var s := SortedExtents(f);
    forall i | 0 <= i < |s|
      ensures s[i].byteCount as nat + BLOCK < U64_LIMIT
    {
      assert s[i] in multiset(f.extents);
    }
  }

  // ---------------------------------------------------------------------------
  // What a range read returns for a contiguous file

  /** The extents lie end to end from offset `from`, with no gap and no overlap. */
  predicate Tiles(es: seq<Extent>, from: nat)
    decreases |es|
  {
    es == [] || (es[0].fileOffset as nat == from && Tiles(es[1..], from + es[0].byteCount as nat))
  }

  /** Where a tiling that starts at `from` ends. */
  function TileEnd(es: seq<Extent>, from: nat): (hi: nat)
    ensures hi >= from
    decreases |es|
  {
    if es == [] then from else TileEnd(es[1..], from + es[0].byteCount as nat)
  }

  /** The size of the overlap of [lo, hi) with [start, end). */
  function Overlap(start: nat, end: nat, lo: nat, hi: nat): nat
  {
    var a := if start > lo then start else lo;
    var b := if end < hi then end else hi;
    if b > a then b - a else 0
  }

  lemma OverlapSplit(start: nat, end: nat, lo: nat, mid: nat, hi: nat)
    requires lo <= mid <= hi
    ensures Overlap(start, end, lo, hi) == Overlap(start, end, lo, mid) + Overlap(start, end, mid, hi)
  {
  }

  /** A successful piece of an extent starting before the end is its overlap with the request. */
  lemma PieceLength(reader: BlockReader, e: Extent, start: u64, end: u64)
    requires e.byteCount as nat + BLOCK < U64_LIMIT && e.fileOffset + e.byteCount < U64_LIMIT
    requires e.fileOffset < end
    requires PieceOf(reader, e, start, end).Ok?
    ensures |PieceOf(reader, e, start, end).value|
      == Overlap(start as nat, end as nat, e.fileOffset as nat, e.fileOffset as nat + e.byteCount as nat)
  {
  }

  /**
   * Over extents that tile [from, hi) without wrap-around, a successful read
   * returns exactly as many bytes as [start, end) shares with the tiled range.
   */
  lemma {:induction false} TiledContentLength(reader: BlockReader, es: seq<Extent>, start: u64, end: u64, from: u64)
    requires ExtentsFit(es) && Tiles(es, from as nat) && TileEnd(es, from as nat) < U64_LIMIT
    requires Content(reader, es, start, end, from).Ok?
    ensures |Content(reader, es, start, end, from).value| == Overlap(start as nat, end as nat, from as nat, TileEnd(es, from as nat))
    decreases |es|
  {
    if es != [] && from < end {
      var e := es[0];
      var mid := from as nat + e.byteCount as nat;
      var hi := TileEnd(es, from as nat);
      TiledHead(reader, es, start, end, from);
      var piece := PieceOf(reader, e, start, end).value;
      var rest := Content(reader, es[1..], start, end, ExtentEnd(e)).value;
      assert |piece| == Overlap(start as nat, end as nat, from as nat, mid) by {
        PieceLength(reader, e, start, end);
      }
      assert |rest| == Overlap(start as nat, end as nat, mid, hi) by {
        TiledContentLength(reader, es[1..], start, end, ExtentEnd(e));
      }
      OverlapSplit(start as nat, end as nat, from as nat, mid, hi);
    }
  }

  /** The first extent of a tiling ends where the rest of the tiling starts, and a successful read is its piece then the rest. */
  lemma TiledHead(reader: BlockReader, es: seq<Extent>, start: u64, end: u64, from: u64)
    requires ExtentsFit(es) && Tiles(es, from as nat) && TileEnd(es, from as nat) < U64_LIMIT
    requires es != [] && from < end && Content(reader, es, start, end, from).Ok?
    ensures var mid := from as nat + es[0].byteCount as nat;
      && ExtentEnd(es[0]) as nat == mid && es[0].fileOffset == from && es[0].fileOffset as nat + es[0].byteCount as nat < U64_LIMIT
      && ExtentsFit(es[1..]) && Tiles(es[1..], mid) && TileEnd(es[1..], mid) == TileEnd(es, from as nat)
      && PieceOf(reader, es[0], start, end).Ok? && Content(reader, es[1..], start, end, ExtentEnd(es[0])).Ok?
      && Content(reader, es, start, end, from).value
        == PieceOf(reader, es[0], start, end).value + Content(reader, es[1..], start, end, ExtentEnd(es[0])).value
  {
    var mid := from as nat + es[0].byteCount as nat;
    assert TileEnd(es[1..], mid) <= TileEnd(es, from as nat);
  }

  /**
   * Reading [start, end) of a file whose extents tile [0, length), with end within
   * the file, yields exactly end - start bytes.
   */
  lemma ContiguousFileRead(reader: BlockReader, f: File, start: u64, end: u64)
    requires ExtentsFit(SortedExtents(f)) && Tiles(SortedExtents(f), 0)
    requires TileEnd(SortedExtents(f), 0) == f.length as nat
    requires start < end <= f.length
    requires Content(reader, SortedExtents(f), start, end, 0).Ok?
    ensures |Content(reader, SortedExtents(f), start, end, 0).value| == end - start
  {
    TiledContentLength(reader, SortedExtents(f), start, end, 0);
  }

  // ---------------------------------------------------------------------------
  // find_xml_end

  const CLOSE: byte := 0x3E

  /**
   * `find_xml_end` of this layer: the end of the first "</ltfsindex>", failing that
   * one past the last '>', and None only for a buffer without any '>'.
   */
  function FindXmlEnd(buffer: seq<byte>): (r: Option<nat>)
    ensures r.Some? <==> exists i :: 0 <= i < |buffer| && buffer[i] == CLOSE
    ensures r.Some? ==> 0 < r.value <= |buffer| && buffer[r.value - 1] == CLOSE
    ensures LtfsUtils.FindXmlEnd(buffer).Some? ==> r == LtfsUtils.FindXmlEnd(buffer)
    ensures LtfsUtils.FindXmlEnd(buffer).None? && r.Some? ==>
      forall j :: r.value <= j < |buffer| ==> buffer[j] != CLOSE
  {
    match LtfsUtils.FindXmlEnd(buffer)
    case Some(n) =>
      assert buffer[..n][n - 1] == LtfsUtils.END_TAG[11];
      Some(n)
    case None =>
      match FindLast(buffer, CLOSE)
      case Some(q) => Some(q + 1)
      case None => None
  }
}

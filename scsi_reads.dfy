// Block reads of scsi/mod.rs: the READ(6) transfer length of
// `read_blocks_direct`, the choice between a direct and a chunked read in
// `read_blocks`, the chunk loop of `read_blocks_chunked`, and the loop of
// `read_to_file_mark` that reads one block per pass until the drive reports
// a filemark. The device is a parameter (`Device`); the lemmas run the
// commands on the drive of TapeDevice.

module ScsiReads {
  import opened Wrappers
  import opened Bytes
  import opened ScsiTypes
  import opened TapeDevice
  import opened ScsiPositioning
  import ScsiSense

  /** LTO_BLOCK_SIZE (scsi/constants.rs). */
  const BLOCK: nat := 65536

  /** `read_blocks` reads directly up to this many blocks. */
  const MAX_BLOCKS_PER_READ: nat := 256

  /** `read_blocks_chunked` reads this many blocks per READ(6). */
  const CHUNK_SIZE: nat := 128

  /** LTFSCopyGUI's GlobalBlockLimit, the bound of the auto-backtrack. */
  const GLOBAL_BLOCK_LIMIT: int := 1048576

  function Min(a: int, b: int): int
  {
    if a < b then a else b
  }

  // ---------------------------------------------------------------------------
  // READ(6)

  /** READ(6) in variable-length mode: byte 1 clear, the transfer length (low 24 bits) in bytes 2-4. */
  function Read6Cdb(length: nat): (cdb: seq<byte>)
    ensures |cdb| == 6 && cdb[0] == 0x08 && cdb[1] == 0 && cdb[5] == 0
    ensures BeValue(cdb[2..5]) == length % U24_LIMIT
  {
    var cdb := [0x08, 0] + BeBytes(length, 3) + [0];
    assert cdb[2..5] == BeBytes(length, 3);
    BeRoundTrip(length, 3);
    Pow256Values();
    cdb
  }

  method BuildRead6Cdb(length: u32) returns (cdb: array<byte>)
    ensures fresh(cdb) && cdb[..] == Read6Cdb(length)
  {
    cdb := new byte[6](_ => 0);
    cdb[0] := 0x08;
    cdb[1] := 0x00;
    cdb[2] := (length / 0x1_0000) % 256;
    cdb[3] := (length / 0x100) % 256;
    cdb[4] := length % 256;
    cdb[5] := 0x00;
    Be3Bytes(length);
  }

  /** `read_blocks_direct`'s byte count: the buffer length, or the request in bytes if smaller (the product taken in u32). */
  function DirectLength(blockCount: u32, bufLen: nat): (n: u32)
    ensures n <= bufLen
    ensures blockCount * BLOCK < U32_LIMIT ==> n == Min(bufLen, blockCount * BLOCK)
  {
    var request := AsU32(blockCount * BLOCK);
    if bufLen < request then bufLen else request
  }

  /** The bytes a transfer of at most n bytes puts at the start of the buffer. */
  function Transferred(data: seq<byte>, n: nat): (d: seq<byte>)
    ensures |d| <= n && |d| <= |data| && d == data[..|d|]
    ensures |data| <= n ==> d == data
  {
    if |data| <= n then data else data[..n]
  }

  /** A read's count, the bytes it transferred and the drive state it leaves. */
  datatype ReadOut = ReadOut(result: Result<u32>, data: seq<byte>, tape: Tape)

  /**
   * `read_blocks_direct`: one READ(6) of the byte count. A request that
   * reached the drive counts as all blocks read; otherwise the sense data
   * decides: a filemark gives the blocks it accounts for, anything else is
   * an error.
   */
  function ReadBlocksDirect(exec: Device, t: Tape, blockCount: u32, bufLen: nat): (o: ReadOut)
    ensures |o.data| <= DirectLength(blockCount, bufLen)
  {
    var n := DirectLength(blockCount, bufLen);
    var r := exec(t, Read6Cdb(n));
    var data := Transferred(r.data, n);
    if r.delivered then ReadOut(Ok(blockCount), data, r.after)
    else
      var sense := Fit(r.sense, SENSE_INFO_LEN);
      var analysis := ScsiSense.AnalyzeReadSense(sense, n).value;
      if analysis.1 then ReadOut(Ok(analysis.0), data, r.after)
      else ReadOut(Fail(Scsi, "Direct block read operation failed: " + ScsiSense.ParseSenseData(sense)), data, r.after)
  }

  /** The buffer with `data` written from `offset` on. */
  function Overlay(buffer: seq<byte>, offset: nat, data: seq<byte>): (b: seq<byte>)
    requires offset + |data| <= |buffer|
    ensures |b| == |buffer|
  {
    buffer[..offset] + data + buffer[offset + |data|..]
  }

  /** The overlaid bytes are `data`; every other byte is the buffer's. */
  lemma OverlayAt(buffer: seq<byte>, offset: nat, data: seq<byte>)
    requires offset + |data| <= |buffer|
    ensures var b := Overlay(buffer, offset, data);
      && b[offset..offset + |data|] == data
      && forall i :: 0 <= i < |buffer| && !(offset <= i < offset + |data|) ==> b[i] == buffer[i]
  {
    var b := Overlay(buffer, offset, data);
    assert b[offset..offset + |data|] == data;
  }

  // ---------------------------------------------------------------------------
  // read_blocks_chunked

  /** A direct read of n blocks into a slice of n blocks, from a drive state. */
  type DirectRead = (Tape, u32) -> ReadOut

  /** `read_blocks_chunked`'s call of `read_blocks_direct` on a slice of exactly the chunk. */
  function DirectOf(exec: Device): DirectRead
  {
    (u: Tape, n: u32) => ReadBlocksDirect(exec, u, n, n * BLOCK)
  }

  /** A read of several chunks: the count, the buffer, the drive state, and the block count of each READ(6) sent. */
  datatype ChunkRun = ChunkRun(result: Result<u32>, buffer: seq<byte>, tape: Tape, chunks: seq<nat>)

  /** One READ(6) of the chunk loop: the chunk asked for, where its bytes go, the bytes, the count or error, and the drive state. */
  datatype ChunkPass = ChunkPass(chunk: u32, offset: nat, data: seq<byte>, result: Result<u32>, tape: Tape)

  /**
   * One pass of the chunk loop from `total` blocks read with `remaining`
   * to go: min(remaining, 128) blocks into the slice of the buffer at byte
   * `total * 65536` (u32 arithmetic).
   */
  function ChunkStep(direct: DirectRead, t: Tape, remaining: u32, total: u32, bufLen: nat): (p: ChunkPass)
    requires 0 < remaining && total + remaining < U32_LIMIT && (total + remaining) * BLOCK <= bufLen
    ensures 0 < p.chunk <= CHUNK_SIZE && p.chunk <= remaining && p.offset + |p.data| <= bufLen
  {
    var chunk: u32 := Min(remaining, CHUNK_SIZE);
    var offset := AsU32(total * BLOCK);
    var d := direct(t, chunk);
    var data := Transferred(d.data, chunk * BLOCK);
    assert offset + |data| <= bufLen by {
      assert offset <= total * BLOCK;
      assert |data| <= chunk * BLOCK <= remaining * BLOCK;
    }
    ChunkPass(chunk, offset, data, d.result, d.tape)
  }

  /**
   * The chunk loop: each pass is a ChunkStep; a pass that reads fewer
   * blocks than its chunk ends the loop with them counted, and an error
   * ends it with what was read, or with the error when nothing was.
   */
  function Chunked(direct: DirectRead, t: Tape, remaining: u32, total: u32, buffer: seq<byte>): (c: ChunkRun)
    requires total + remaining < U32_LIMIT && (total + remaining) * BLOCK <= |buffer|
    ensures |c.buffer| == |buffer|
    decreases remaining
  {
    if remaining == 0 then ChunkRun(Ok(total), buffer, t, [])
    else
      var p := ChunkStep(direct, t, remaining, total, |buffer|);
      var buf := Overlay(buffer, p.offset, p.data);
      match p.result
      case Ok(n) =>
        if n != p.chunk then ChunkRun(Ok(AsU32(total + n)), buf, p.tape, [p.chunk])
        else
          var rest := Chunked(direct, p.tape, remaining - n, total + n, buf);
          rest.(chunks := [p.chunk] + rest.chunks)
      case Err(e) =>
        if total > 0 then ChunkRun(Ok(total), buf, p.tape, [p.chunk]) else ChunkRun(Err(e), buf, p.tape, [p.chunk])
  }

  /** The outcome of a chunk run without its trace of chunks. */
  function Final(c: ChunkRun): (Result<u32>, seq<byte>, Tape)
  {
    (c.result, c.buffer, c.tape)
  }

  /** One pass of the chunk loop, unfolded: a full chunk goes on with the rest of the request. */
  lemma ChunkedGoesOn(direct: DirectRead, t: Tape, remaining: u32, total: u32, buffer: seq<byte>, p: ChunkPass)
    requires 0 < remaining && total + remaining < U32_LIMIT && (total + remaining) * BLOCK <= |buffer|
    requires p == ChunkStep(direct, t, remaining, total, |buffer|) && p.result == Ok(p.chunk)
    ensures var rest := Chunked(direct, p.tape, remaining - p.chunk, total + p.chunk, Overlay(buffer, p.offset, p.data));
      var c := Chunked(direct, t, remaining, total, buffer);
      Final(c) == Final(rest) && c.chunks == [p.chunk] + rest.chunks
  {
  }

  /** One pass of the chunk loop, unfolded: a short chunk or an error ends the loop. */
  lemma ChunkedEnds(direct: DirectRead, t: Tape, remaining: u32, total: u32, buffer: seq<byte>, p: ChunkPass)
    requires 0 < remaining && total + remaining < U32_LIMIT && (total + remaining) * BLOCK <= |buffer|
    requires p == ChunkStep(direct, t, remaining, total, |buffer|) && p.result != Ok(p.chunk)
    ensures var c := Chunked(direct, t, remaining, total, buffer);
      && c.buffer == Overlay(buffer, p.offset, p.data) && c.tape == p.tape && c.chunks == [p.chunk]
      && c.result == (if p.result.Ok? then Ok(AsU32(total + p.result.value)) else if total > 0 then Ok(total) else p.result)
  {
  }

  /** `read_blocks_chunked` on an array buffer, proved against `Chunked`. */
  method ReadBlocksChunked(exec: Device, t: Tape, blockCount: u32, buffer: array<byte>) returns (result: Result<u32>, after: Tape)
    requires blockCount * BLOCK <= buffer.Length
    modifies buffer
    ensures Final(Chunked(DirectOf(exec), t, blockCount, 0, old(buffer[..]))) == (result, buffer[..], after)
  {
    result, after := ChunkLoop(DirectOf(exec), t, blockCount, buffer);
  }

  /** The loop of `read_blocks_chunked`, for any direct read of a chunk. */
  method ChunkLoop(direct: DirectRead, t: Tape, blockCount: u32, buffer: array<byte>) returns (result: Result<u32>, after: Tape)
    requires blockCount * BLOCK <= buffer.Length
    modifies buffer
    ensures Final(Chunked(direct, t, blockCount, 0, old(buffer[..]))) == (result, buffer[..], after)
  {
    ghost var goal := Final(Chunked(direct, t, blockCount, 0, buffer[..]));
    var total: u32 := 0;
    var remaining: u32 := blockCount;
    ghost var cur := buffer[..];
    after := t;
    while remaining > 0
      invariant total + remaining == blockCount
      invariant (total + remaining) * BLOCK <= |cur| && cur == buffer[..]
      invariant goal == Final(Chunked(direct, after, remaining, total, cur))
      decreases remaining
    {
      var done: bool;
      ghost var next: seq<byte>;
      done, result, after, total, remaining, next := ChunkPassStep(direct, after, remaining, total, buffer, cur);
      cur := next;
      if done {
        return;
      }
    }
    result := Ok(total);
  }

  /**
   * One pass of the chunk loop on the buffer: either the loop ends here
   * with its outcome, or it goes on from the counts and drive state returned.
   */
  method ChunkPassStep(direct: DirectRead, t: Tape, remaining: u32, total: u32, buffer: array<byte>, ghost cur: seq<byte>)
    returns (done: bool, result: Result<u32>, after: Tape, total': u32, remaining': u32, ghost next: seq<byte>)
    requires 0 < remaining && total + remaining < U32_LIMIT && (total + remaining) * BLOCK <= |cur| && cur == buffer[..]
    modifies buffer
    ensures next == buffer[..] && |next| == |cur|
    ensures done ==> Final(Chunked(direct, t, remaining, total, cur)) == (result, next, after)
    ensures !done ==> total' + remaining' == total + remaining && remaining' < remaining
    ensures !done ==> Final(Chunked(direct, t, remaining, total, cur)) == Final(Chunked(direct, after, remaining', total', next))
  {
    var p := ChunkInto(direct, t, remaining, total, buffer);
    next := Overlay(cur, p.offset, p.data);
    after := p.tape;
    if p.result != Ok(p.chunk) {
      done := true;
      result := if p.result.Ok? then Ok(AsU32(total + p.result.value)) else if total > 0 then Ok(total) else p.result;
      total', remaining' := total, remaining;
      ChunkedEnds(direct, t, remaining, total, cur, p);
    } else {
      done := false;
      result := Ok(total);
      total', remaining' := total + p.chunk, remaining - p.chunk;
      ChunkedGoesOn(direct, t, remaining, total, cur, p);
    }
  }

  /** One pass of the loop: the direct read of the chunk, its bytes copied into the buffer. */
  method ChunkInto(direct: DirectRead, t: Tape, remaining: u32, total: u32, buffer: array<byte>) returns (p: ChunkPass)
    requires 0 < remaining && total + remaining < U32_LIMIT && (total + remaining) * BLOCK <= buffer.Length
    modifies buffer
    ensures p == ChunkStep(direct, t, remaining, total, buffer.Length)
    ensures buffer[..] == Overlay(old(buffer[..]), p.offset, p.data)
  {
    p := ChunkStep(direct, t, remaining, total, buffer.Length);
    CopyInto(buffer, p.offset, p.data);
  }

  /** Copies `data` into the buffer from `offset` on (the slice `read_blocks_direct` fills). */
  method CopyInto(buffer: array<byte>, offset: nat, data: seq<byte>)
    requires offset + |data| <= buffer.Length
    modifies buffer
    ensures buffer[..] == Overlay(old(buffer[..]), offset, data)
  {
    forall i | 0 <= i < |data| {
      buffer[offset + i] := data[i];
    }
    OverlayAt(old(buffer[..]), offset, data);
    assert forall i :: 0 <= i < buffer.Length ==> buffer[..][i] == Overlay(old(buffer[..]), offset, data)[i];
  }

  function Sum(s: seq<nat>): nat
  {
    if s == [] then 0 else s[0] + Sum(s[1..])
  }

  /** Chunks of 1 to 128 blocks, together at most `budget` blocks. */
  predicate ChunksWithin(chunks: seq<nat>, budget: nat)
  {
    (forall i :: 0 <= i < |chunks| ==> 0 < chunks[i] <= CHUNK_SIZE) && Sum(chunks) <= budget
  }

  lemma ChunksCons(x: nat, rest: seq<nat>, budget: nat)
    requires 0 < x <= CHUNK_SIZE && x <= budget && ChunksWithin(rest, budget - x)
    ensures ChunksWithin([x] + rest, budget)
  {
    assert ([x] + rest)[1..] == rest;
  }

  /** Every READ(6) of a chunked read asks for 1 to 128 blocks, and together for at most the request. */
  lemma {:induction false} ChunkSizes(direct: DirectRead, t: Tape, remaining: u32, total: u32, buffer: seq<byte>)
    requires total + remaining < U32_LIMIT && (total + remaining) * BLOCK <= |buffer|
    ensures ChunksWithin(Chunked(direct, t, remaining, total, buffer).chunks, remaining)
    decreases remaining, 1
  {
    if remaining > 0 {
      var p := ChunkStep(direct, t, remaining, total, |buffer|);
      if p.result == Ok(p.chunk) {
        ChunkSizesGoOn(direct, t, remaining, total, buffer, p);
      } else {
        assert Chunked(direct, t, remaining, total, buffer).chunks == [p.chunk] + [] by {
          ChunkedEnds(direct, t, remaining, total, buffer, p);
        }
        ChunksCons(p.chunk, [], remaining);
      }
    }
  }

  /** The step of ChunkSizes where the chunk was read in full and the read goes on. */
  lemma {:induction false} ChunkSizesGoOn(direct: DirectRead, t: Tape, remaining: u32, total: u32, buffer: seq<byte>, p: ChunkPass)
    requires total + remaining < U32_LIMIT && (total + remaining) * BLOCK <= |buffer|
    requires remaining > 0 && p == ChunkStep(direct, t, remaining, total, |buffer|) && p.result == Ok(p.chunk)
    ensures ChunksWithin(Chunked(direct, t, remaining, total, buffer).chunks, remaining)
    decreases remaining, 0
  {
    var buf := Overlay(buffer, p.offset, p.data);
    var total', remaining' := total + p.chunk, remaining - p.chunk;
    assert total' + remaining' == total + remaining && |buf| == |buffer|;
    var rest := Chunked(direct, p.tape, remaining', total', buf).chunks;
    assert Chunked(direct, t, remaining, total, buffer).chunks == [p.chunk] + rest by {
      ChunkedGoesOn(direct, t, remaining, total, buffer, p);
    }
    assert ChunksWithin(rest, remaining') by {
      ChunkSizes(direct, p.tape, remaining', total', buf);
    }
    ChunksCons(p.chunk, rest, remaining);
  }

  /** A direct read that never reports more blocks than asked for. */
  ghost predicate DirectBounded(direct: DirectRead)
  {
    forall u: Tape, n: u32 :: direct(u, n).result.Ok? ==> direct(u, n).result.value <= n
  }

  /** With such a read, a chunked read never reports more than it was asked for, nor less than it had. */
  lemma {:induction false} ChunkedWithinRequest(direct: DirectRead, t: Tape, remaining: u32, total: u32, buffer: seq<byte>)
    requires total + remaining < U32_LIMIT && (total + remaining) * BLOCK <= |buffer|
    requires DirectBounded(direct)
    ensures var c := Chunked(direct, t, remaining, total, buffer);
      c.result.Ok? ==> total <= c.result.value <= total + remaining
    decreases remaining
  {
    if remaining > 0 {
      var p := ChunkStep(direct, t, remaining, total, |buffer|);
      if p.result.Ok? {
        assert p.result.value <= p.chunk;
        if p.result.value == p.chunk {
          var buf := Overlay(buffer, p.offset, p.data);
          ChunkedWithinRequest(direct, p.tape, remaining - p.chunk, total + p.chunk, buf);
        }
      }
    }
  }

  /** A chunked read fails exactly when nothing was read before and its first READ fails, and then with that read's error. */
  lemma {:induction false} ChunkedFails(direct: DirectRead, t: Tape, remaining: u32, total: u32, buffer: seq<byte>)
    requires total + remaining < U32_LIMIT && (total + remaining) * BLOCK <= |buffer|
    ensures var c := Chunked(direct, t, remaining, total, buffer);
      var first := direct(t, Min(remaining, CHUNK_SIZE));
      && (c.result.Err? <==> total == 0 && remaining > 0 && first.result.Err?)
      && (c.result.Err? ==> c.result == first.result)
    decreases remaining
  {
    if remaining > 0 {
      var p := ChunkStep(direct, t, remaining, total, |buffer|);
      assert p.result == direct(t, Min(remaining, CHUNK_SIZE)).result;
      if p.result.Ok? && p.result.value == p.chunk {
        var buf := Overlay(buffer, p.offset, p.data);
        var rest := Chunked(direct, p.tape, remaining - p.chunk, total + p.chunk, buf);
        assert Chunked(direct, t, remaining, total, buffer).result == rest.result;
        ChunkedFails(direct, p.tape, remaining - p.chunk, total + p.chunk, buf);
      }
    }
  }

  /** The drive of TapeDevice takes every READ(6), so its direct reads report exactly the blocks asked for. */
  lemma DriveDirectBounded()
    ensures DirectBounded(DirectOf(Execute))
  {
    forall u: Tape, n: u32
      ensures DirectOf(Execute)(u, n).result == Ok(n)
    {
      Read6Delivered(u, DirectLength(n, n * BLOCK));
      DeliveredDirect(Execute, u, n, n * BLOCK);
    }
  }

  /** The drive answers every READ(6), with CHECK CONDITION or not. */
  lemma Read6Delivered(t: Tape, n: nat)
    ensures Execute(t, Read6Cdb(n)).delivered
  {
    var cdb := Read6Cdb(n);
    if Valid(t) {
      assert Execute(t, cdb) == ExecRead6(t, cdb);
    }
  }

  /** A READ(6) that reaches the drive counts as all blocks read. */
  lemma DeliveredDirect(exec: Device, t: Tape, n: u32, len: nat)
    requires exec(t, Read6Cdb(DirectLength(n, len))).delivered
    ensures ReadBlocksDirect(exec, t, n, len).result == Ok(n)
  {
  }

  // ---------------------------------------------------------------------------
  // read_blocks

  datatype BlocksOut = BlocksOut(result: Result<u32>, buffer: seq<byte>, tape: Tape)

  /**
   * `read_blocks`: a direct read for up to 256 blocks, chunks of 128
   * otherwise. A chunked read slices the buffer at every chunk, so it
   * needs room for all the blocks requested.
   */
  function ReadBlocks(exec: Device, t: Tape, blockCount: u32, buffer: seq<byte>): (o: BlocksOut)
    requires blockCount > MAX_BLOCKS_PER_READ ==> blockCount * BLOCK <= |buffer|
    ensures |o.buffer| == |buffer|
  {
    if blockCount <= MAX_BLOCKS_PER_READ then
      var d := ReadBlocksDirect(exec, t, blockCount, |buffer|);
      BlocksOut(d.result, Overlay(buffer, 0, d.data), d.tape)
    else
      var c := Chunked(DirectOf(exec), t, blockCount, 0, buffer);
      BlocksOut(c.result, c.buffer, c.tape)
  }

  /** A direct read below 256 blocks asks the drive for exactly its byte count. */
  lemma DirectLengthEncoded(blockCount: u32, bufLen: nat)
    requires blockCount < MAX_BLOCKS_PER_READ
    ensures var n := DirectLength(blockCount, bufLen);
      n == Min(bufLen, blockCount * BLOCK) && BeValue(Read6Cdb(n)[2..5]) == n
  {
  }

  /**
   * As written, a direct read of 256 blocks into a buffer of at least
   * 16 MiB has a byte count of 2^24, whose low 24 bits are 0: the drive is
   * asked for nothing, transfers nothing and does not move, and the read
   * reports 256 blocks.
   */
  lemma ReadBlocks256(t: Tape, buffer: seq<byte>)
    requires Valid(t) && |buffer| >= U24_LIMIT
    ensures DirectLength(256, |buffer|) == U24_LIMIT
    ensures Read6Cdb(U24_LIMIT)[2..5] == [0, 0, 0]
    ensures ReadBlocks(Execute, t, 256, buffer) == BlocksOut(Ok(256), buffer, t)
  {
    var cdb := Read6Cdb(U24_LIMIT);
    Be3Bytes(U24_LIMIT);
    assert Execute(t, cdb) == ExecRead6(t, cdb);
    assert BeValue(cdb[2..5]) == 0;
    assert Overlay(buffer, 0, []) == buffer;
  }

  /** `read_blocks` with the direct path kept to requests whose byte count fits READ(6)'s 24-bit field. */
  function ReadBlocksFixed(exec: Device, t: Tape, blockCount: u32, buffer: seq<byte>): (o: BlocksOut)
    requires blockCount >= MAX_BLOCKS_PER_READ ==> blockCount * BLOCK <= |buffer|
    ensures |o.buffer| == |buffer|
  {
    if blockCount < MAX_BLOCKS_PER_READ then
      var d := ReadBlocksDirect(exec, t, blockCount, |buffer|);
      BlocksOut(d.result, Overlay(buffer, 0, d.data), d.tape)
    else
      var c := Chunked(DirectOf(exec), t, blockCount, 0, buffer);
      BlocksOut(c.result, c.buffer, c.tape)
  }

  /** Corrected, every READ(6) the read sends carries its full byte count: the direct one by DirectLengthEncoded, each chunk (at most 128 blocks) likewise. */
  lemma ReadBlocksFixedEncoded(blockCount: u32, bufLen: nat)
    ensures blockCount < MAX_BLOCKS_PER_READ ==> BeValue(Read6Cdb(DirectLength(blockCount, bufLen))[2..5]) == DirectLength(blockCount, bufLen)
    ensures var chunk: u32 := Min(blockCount, CHUNK_SIZE); BeValue(Read6Cdb(DirectLength(chunk, chunk * BLOCK))[2..5]) == chunk * BLOCK
  {
    if blockCount < MAX_BLOCKS_PER_READ {
      DirectLengthEncoded(blockCount, bufLen);
    }
    var chunk: u32 := Min(blockCount, CHUNK_SIZE);
    DirectLengthEncoded(chunk, chunk * BLOCK);
  }

  /** Every READ(6) reaches the drive of TapeDevice, so as written a direct read always reports all blocks, even at a filemark. */
  lemma DirectReadAtFileMark(t: Tape, blockCount: u32, bufLen: nat)
    requires Valid(t) && t.block < |Records(t)| && Records(t)[t.block].FileMark?
    requires 0 < blockCount < MAX_BLOCKS_PER_READ && bufLen > 0
    ensures ReadBlocksDirect(Execute, t, blockCount, bufLen) == ReadOut(Ok(blockCount), [], t.(block := t.block + 1))
  {
    var n := DirectLength(blockCount, bufLen);
    DirectLengthEncoded(blockCount, bufLen);
    var cdb := Read6Cdb(n);
    assert Execute(t, cdb) == ExecRead6(t, cdb);
  }

  /**
   * `read_blocks_direct` as evidently intended: a reply whose sense data
   * is not all zero (CHECK CONDITION) is analysed too, so a filemark ends
   * the count.
   */
  function ReadBlocksDirectFixed(exec: Device, t: Tape, blockCount: u32, bufLen: nat): (o: ReadOut)
    ensures |o.data| <= DirectLength(blockCount, bufLen)
  {
    var n := DirectLength(blockCount, bufLen);
    var r := exec(t, Read6Cdb(n));
    var data := Transferred(r.data, n);
    var sense := Fit(r.sense, SENSE_INFO_LEN);
    if r.delivered && sense == ZeroSense then ReadOut(Ok(blockCount), data, r.after)
    else
      var analysis := ScsiSense.AnalyzeReadSense(sense, n).value;
      if analysis.1 then ReadOut(Ok(analysis.0), data, r.after)
      else ReadOut(Fail(Scsi, "Direct block read operation failed: " + ScsiSense.ParseSenseData(sense)), data, r.after)
  }

  /** Corrected, a direct read at a filemark reports no blocks and moves past the mark. */
  lemma DirectReadFixedAtFileMark(t: Tape, blockCount: u32, bufLen: nat)
    requires Valid(t) && t.block < |Records(t)| && Records(t)[t.block].FileMark?
    requires 0 < blockCount < MAX_BLOCKS_PER_READ && bufLen > 0
    ensures ReadBlocksDirectFixed(Execute, t, blockCount, bufLen) == ReadOut(Ok(0), [], t.(block := t.block + 1))
  {
    var n := DirectLength(blockCount, bufLen);
    DirectLengthEncoded(blockCount, bufLen);
    ReadAtFileMark(t, n);
    DirectFixedOverMark(Execute, t, blockCount, bufLen);
  }

  /** A READ(6) of n bytes over a filemark: CHECK CONDITION with the filemark bit and the whole request as residue, nothing transferred, the head past the mark. */
  lemma ReadAtFileMark(t: Tape, n: u32)
    requires Valid(t) && t.block < |Records(t)| && Records(t)[t.block].FileMark?
    requires 0 < n < U24_LIMIT && BeValue(Read6Cdb(n)[2..5]) == n
    ensures var r := Execute(t, Read6Cdb(n));
      && r.after == t.(block := t.block + 1) && r.data == [] && |r.sense| == SENSE_INFO_LEN
      && r.sense[2] == FILEMARK_BIT + NO_SENSE && r.sense[12] == 0 && r.sense[13] == 1
      && BeValue(r.sense[3..7]) == n
  {
    var cdb := Read6Cdb(n);
    assert Execute(t, cdb) == ExecRead6(t, cdb);
    assert ExecRead6(t, cdb) == Check(t.(block := t.block + 1), FILEMARK_BIT + NO_SENSE, 0x00, 0x01, n, []);
  }

  /** Corrected, a direct read whose drive reports a filemark with the whole request as residue reports no blocks. */
  lemma DirectFixedOverMark(exec: Device, t: Tape, blockCount: u32, bufLen: nat)
    requires var n := DirectLength(blockCount, bufLen);
      var r := exec(t, Read6Cdb(n));
      && 0 < n < U24_LIMIT && r.data == [] && |r.sense| == SENSE_INFO_LEN
      && r.sense[2] == FILEMARK_BIT + NO_SENSE && r.sense[12] == 0 && r.sense[13] == 1
      && BeValue(r.sense[3..7]) == n
    ensures var n := DirectLength(blockCount, bufLen);
      ReadBlocksDirectFixed(exec, t, blockCount, bufLen) == ReadOut(Ok(0), [], exec(t, Read6Cdb(n)).after)
  {
    var n := DirectLength(blockCount, bufLen);
    FileMarkSenseAnalysis(exec(t, Read6Cdb(n)).sense, n);
    DirectFixedAnalysed(exec, t, blockCount, bufLen, 0);
  }

  /** Corrected, a direct read whose sense is not all zero reports what the sense analysis accounts for. */
  lemma DirectFixedAnalysed(exec: Device, t: Tape, blockCount: u32, bufLen: nat, k: nat)
    requires var n := DirectLength(blockCount, bufLen);
      var r := exec(t, Read6Cdb(n));
      var sense := Fit(r.sense, SENSE_INFO_LEN);
      sense != ZeroSense && ScsiSense.AnalyzeReadSense(sense, n) == Ok((k, true))
    ensures var n := DirectLength(blockCount, bufLen);
      var r := exec(t, Read6Cdb(n));
      ReadBlocksDirectFixed(exec, t, blockCount, bufLen) == ReadOut(Ok(k), Transferred(r.data, n), r.after)
  {
  }

  /** The sense of a READ that met a filemark, with the whole request as its residue, accounts for no blocks and a filemark. */
  lemma FileMarkSenseAnalysis(sense: seq<byte>, n: u32)
    requires 0 < n < U24_LIMIT
    requires |sense| == SENSE_INFO_LEN && sense[2] == FILEMARK_BIT + NO_SENSE && sense[12] == 0 && sense[13] == 1
    requires BeValue(sense[3..7]) == n
    ensures Fit(sense, SENSE_INFO_LEN) == sense && sense != ZeroSense
    ensures ScsiSense.AnalyzeReadSense(sense, n) == Ok((0, true))
  {
    assert sense[2] != ZeroSense[2];
    var diff := ScsiSense.DiffBytes(sense);
    assert diff == n;
    assert ScsiSense.BytesRead(n, diff) == 0;
  }

  // ---------------------------------------------------------------------------
  // read_to_file_mark

  /** One pass of the loop: the bytes appended, whether the loop ends, an error that ends it, and the drive state. */
  datatype Pass = Pass(appended: seq<byte>, stop: bool, failure: Option<Error>, tape: Tape)

  /** `add_key >= 1 && add_key != 4`: the stop rule on ASC/ASCQ. */
  predicate StopCode(sense: seq<byte>)
    requires |sense| >= 14
  {
    var k := AddCode(sense);
    k >= 1 && k != 4
  }

  /** `block_size_limit as i32 - diff_bytes` in i32 arithmetic. */
  function Widened(sizeLimit: u32, diff: i32): i32
  {
    AsI32(AsI32(sizeLimit) - diff)
  }

  /** The auto-backtrack condition: an overlength block (negative residue) that fits the global limit. */
  predicate Backtracks(sizeLimit: u32, sense: seq<byte>)
    requires |sense| >= 7
  {
    var diff := ScsiSense.DiffBytes(sense);
    diff < 0 && Widened(sizeLimit, diff) < GLOBAL_BLOCK_LIMIT
  }

  /**
   * One pass of `read_to_file_mark`: READ(6) of min(limit, 65536) bytes into
   * a zeroed buffer of that size. A delivered read with an overlength
   * block backs up one block and reads it again (with `fixed`, the re-read
   * block is appended; as written it is not), and the re-read's ASC/ASCQ
   * decides whether to stop. Otherwise a delivered read appends the whole
   * buffer, and the loop stops on the ASC/ASCQ rule or, as written, when
   * a failed read leaves the buffer empty (only a zero limit does);
   * with `fixed`, on any failed read.
   */
  function ReadPassWith(exec: Device, iface: ScsiInterface, t: Tape, sizeLimit: u32, fixed: bool): Pass
  {
    var limit: u32 := Min(sizeLimit, BLOCK);
    var cdb := Read6Cdb(limit);
    var r := exec(t, cdb);
    var sense := Fit(r.sense, SENSE_INFO_LEN);
    var block := Fit(r.data, limit);
    if r.delivered && Backtracks(sizeLimit, sense) then
      BacktrackPass(exec, iface, r.after, cdb, limit, Widened(sizeLimit, ScsiSense.DiffBytes(sense)), block, StopCode(sense), fixed)
    else if r.delivered then Pass(block, StopCode(sense), None, r.after)
    else Pass([], StopCode(sense) || limit == 0 || fixed, None, r.after)
  }

  /**
   * The auto-backtrack: read the position; when the block number is above
   * 0, locate the previous block, read the position again, and re-read
   * into a buffer of min(max(0, widened), limit) bytes. Without a position
   * or at block 0 the pass goes on as an ordinary delivered read.
   */
  function BacktrackPass(exec: Device, iface: ScsiInterface, t: Tape, cdb: seq<byte>, limit: u32, widened: i32,
                         block: seq<byte>, stop: bool, fixed: bool): Pass
  {
    var pos := ReadPosition(exec, t);
    if pos.result.Err? || pos.result.value.blockNumber == 0 then Pass(block, stop, None, pos.tape)
    else
      var here := pos.result.value;
      var l := Locate(exec, iface, pos.tape, here.blockNumber - 1, here.partition, Block);
      if l.result.Err? then Pass([], true, Some(l.result.error), l.tape)
      else
        var check := ReadPosition(exec, l.tape);
        var adjusted := Min(if widened < 0 then 0 else widened, limit);
        var rr := exec(check.tape, cdb);
        var reread := if rr.delivered && adjusted > 0 then Fit(rr.data, adjusted) else block;
        Pass(if fixed then reread else [], StopCode(Fit(rr.sense, SENSE_INFO_LEN)), None, rr.after)
  }

  /** The pass as a function of the drive state. */
  function PassOf(exec: Device, iface: ScsiInterface, sizeLimit: u32, fixed: bool): Tape -> Pass
  {
    u => ReadPassWith(exec, iface, u, sizeLimit, fixed)
  }

  /** How the loop ends: with the bytes read (or an error) and the drive state, or still running after the passes allowed. */
  datatype Drain = Drain(result: Result<seq<byte>>, tape: Tape) | StillReading

  /** The loop of `read_to_file_mark` over a pass, run for at most `fuel` passes, after `acc` was read. */
  function PassLoop(pass: Tape -> Pass, t: Tape, fuel: nat, acc: seq<byte>): Drain
    decreases fuel
  {
    if fuel == 0 then StillReading
    else
      var p := pass(t);
      if p.failure.Some? then Drain(Err(p.failure.value), p.tape)
      else if p.stop then Drain(Ok(acc + p.appended), p.tape)
      else PassLoop(pass, p.tape, fuel - 1, acc + p.appended)
  }

  /** A loop that ends within `fuel` passes ends the same way however many more passes are allowed. */
  lemma {:induction false} PassLoopMoreFuel(pass: Tape -> Pass, t: Tape, fuel: nat, more: nat, acc: seq<byte>)
    requires PassLoop(pass, t, fuel, acc).Drain? && fuel <= more
    ensures PassLoop(pass, t, more, acc) == PassLoop(pass, t, fuel, acc)
    decreases fuel
  {
    var p := pass(t);
    if p.failure.None? && !p.stop {
      PassLoopMoreFuel(pass, p.tape, fuel - 1, more - 1, acc + p.appended);
    }
  }

  /**
   * `read_to_file_mark` as written, allowed `fuel` passes. No pass is
   * allowed without fuel, and once the loop ends within the fuel, more fuel
   * changes nothing, so the bound stands for the source's unbounded loop.
   */
  function ReadToFileMark(exec: Device, iface: ScsiInterface, t: Tape, sizeLimit: u32, fuel: nat): (r: Drain)
    ensures fuel == 0 ==> r.StillReading?
    ensures r.Drain? ==> forall more :: fuel <= more ==> PassLoop(PassOf(exec, iface, sizeLimit, false), t, more, []) == r
  {
    var d := PassLoop(PassOf(exec, iface, sizeLimit, false), t, fuel, []);
    if d.Drain? then
      assert forall more :: fuel <= more ==> PassLoop(PassOf(exec, iface, sizeLimit, false), t, more, []) == d by {
        forall more | fuel <= more {
          PassLoopMoreFuel(PassOf(exec, iface, sizeLimit, false), t, fuel, more, []);
        }
      }
      d
    else d
  }

  /** `read_to_file_mark` with the re-read block kept and a failed read ending the loop. */
  function ReadToFileMarkFixed(exec: Device, iface: ScsiInterface, t: Tape, sizeLimit: u32, fuel: nat): Drain
  {
    PassLoop(PassOf(exec, iface, sizeLimit, true), t, fuel, [])
  }

  /** The loop itself, extending its buffer pass by pass, for any pass. */
  method RunPassLoop(pass: Tape -> Pass, t: Tape, fuel: nat) returns (d: Drain)
    ensures d == PassLoop(pass, t, fuel, [])
  {
    var buffer: seq<byte> := [];
    var tape := t;
    var left := fuel;
    while left > 0
      invariant PassLoop(pass, t, fuel, []) == PassLoop(pass, tape, left, buffer)
      decreases left
    {
      var p := pass(tape);
      if p.failure.Some? {
        return Drain(Err(p.failure.value), p.tape);
      }
      buffer := buffer + p.appended;
      tape := p.tape;
      if p.stop {
        return Drain(Ok(buffer), tape);
      }
      left := left - 1;
    }
    return StillReading;
  }

  /** `read_to_file_mark`: the loop over the pass as written. */
  method ReadToFileMarkLoop(exec: Device, iface: ScsiInterface, t: Tape, sizeLimit: u32, fuel: nat) returns (d: Drain)
    ensures d == ReadToFileMark(exec, iface, t, sizeLimit, fuel)
  {
    d := RunPassLoop(PassOf(exec, iface, sizeLimit, false), t, fuel);
  }

  /** The stop rule of a pass without a backtrack: the ASC/ASCQ rule, or a failed read with an empty buffer. */
  lemma PassStopRule(exec: Device, iface: ScsiInterface, t: Tape, sizeLimit: u32)
    requires var r := exec(t, Read6Cdb(Min(sizeLimit, BLOCK)));
      !(r.delivered && Backtracks(sizeLimit, Fit(r.sense, SENSE_INFO_LEN)))
    ensures var r := exec(t, Read6Cdb(Min(sizeLimit, BLOCK)));
      var p := ReadPassWith(exec, iface, t, sizeLimit, false);
      && (p.stop <==> StopCode(Fit(r.sense, SENSE_INFO_LEN)) || (!r.delivered && sizeLimit == 0))
      && p.appended == (if r.delivered then Fit(r.data, Min(sizeLimit, BLOCK)) else [])
      && p.failure.None? && p.tape == r.after
  {
  }

  // ---------------------------------------------------------------------------
  // read_to_file_mark on the drive

  function RecordBytes(r: Record): seq<byte>
  {
    if r.Data? then r.bytes else []
  }

  /** The blocks of a run of data records, each padded with zeros to `limit` bytes. */
  function Padded(recs: seq<Record>, limit: nat): (s: seq<byte>)
    ensures |s| == |recs| * limit
  {
    if recs == [] then [] else Padded(recs[..|recs| - 1], limit) + Fit(RecordBytes(recs[|recs| - 1]), limit)
  }

  /** Padding a run is padding its first block, then the rest. */
  lemma {:induction false} PaddedCons(recs: seq<Record>, limit: nat)
    requires recs != []
    ensures Padded(recs, limit) == Fit(RecordBytes(recs[0]), limit) + Padded(recs[1..], limit)
  {
    if |recs| > 1 {
      var init := recs[..|recs| - 1];
      PaddedCons(init, limit);
      assert init[1..] == recs[1..][..|recs[1..]| - 1];
      assert init[0] == recs[0];
    } else {
      assert recs[..0] == [];
      assert recs[1..] == [];
    }
  }

  /** Data records from i to j, none longer than `limit`. */
  predicate ShortBlocks(recs: seq<Record>, i: nat, j: nat, limit: nat)
    requires i <= j <= |recs|
  {
    forall k :: i <= k < j ==> recs[k].Data? && |recs[k].bytes| <= limit
  }

  /** The drive at record k of the same partition. */
  function At(t: Tape, k: nat): Tape
  {
    t.(block := k)
  }

  /**
   * Any pass that appends each lone block of recs[i..j] padded to `limit`
   * and moves on, and stops at j with a zeroed buffer, drains the run:
   * every block padded, then the zeroed buffer.
   */
  lemma {:induction false} LoopOverRun(pass: Tape -> Pass, base: Tape, i: nat, recs: seq<Record>, limit: nat, j: nat, last: Tape, fuel: nat, acc: seq<byte>)
    requires i <= j <= |recs| && fuel > j - i
    requires forall k {:trigger pass(At(base, k))} :: i <= k < j ==> pass(At(base, k)) == Pass(Fit(RecordBytes(recs[k]), limit), false, None, At(base, k + 1))
    requires pass(At(base, j)) == Pass(Zeros(limit), true, None, last)
    ensures PassLoop(pass, At(base, i), fuel, acc) == Drain(Ok(acc + Padded(recs[i..j], limit) + Zeros(limit)), last)
    decreases j - i
  {
    if i == j {
      assert recs[i..j] == [];
      assert acc + [] + Zeros(limit) == acc + Zeros(limit);
    } else {
      var head := Fit(RecordBytes(recs[i]), limit);
      LoopGoesOn(pass, At(base, i), fuel, acc, head, At(base, i + 1));
      LoopOverRun(pass, base, i + 1, recs, limit, j, last, fuel - 1, acc + head);
      PaddedStep(acc, recs, i, j, limit);
    }
  }

  /** A pass that appends `head` and goes on leaves the rest of the loop to the next state. */
  lemma LoopGoesOn(pass: Tape -> Pass, t: Tape, fuel: nat, acc: seq<byte>, head: seq<byte>, next: Tape)
    requires fuel > 0 && pass(t) == Pass(head, false, None, next)
    ensures PassLoop(pass, t, fuel, acc) == PassLoop(pass, next, fuel - 1, acc + head)
  {
  }

  /** One more lone block in front of the rest of a run. */
  lemma PaddedStep(acc: seq<byte>, recs: seq<Record>, i: nat, j: nat, limit: nat)
    requires i < j <= |recs|
    ensures acc + Fit(RecordBytes(recs[i]), limit) + Padded(recs[i + 1..j], limit) + Zeros(limit)
      == acc + Padded(recs[i..j], limit) + Zeros(limit)
  {
    var head := Fit(RecordBytes(recs[i]), limit);
    var rest := Padded(recs[i + 1..j], limit);
    PaddedCons(recs[i..j], limit);
    assert recs[i..j][1..] == recs[i + 1..j];
    AppendAssoc(acc, head, rest, Zeros(limit));
  }

  lemma AppendAssoc(a: seq<byte>, b: seq<byte>, c: seq<byte>, d: seq<byte>)
    ensures a + b + c + d == a + (b + c) + d
  {
  }

  /** A READ(6) of `limit` bytes over a data block no longer than that: delivered, the block, no stop code, no backtrack. */
  lemma ReadShortBlock(t: Tape, limit: nat)
    requires Valid(t) && 0 < limit <= BLOCK && t.block < |Records(t)|
    requires Records(t)[t.block].Data? && |Records(t)[t.block].bytes| <= limit
    ensures var r := Execute(t, Read6Cdb(limit));
      var sense := Fit(r.sense, SENSE_INFO_LEN);
      && r.delivered && r.after == t.(block := t.block + 1) && r.data == Records(t)[t.block].bytes
      && !StopCode(sense) && ScsiSense.DiffBytes(sense) >= 0
  {
    var cdb := Read6Cdb(limit);
    assert BeValue(cdb[2..5]) == limit;
    assert Execute(t, cdb) == ExecRead6(t, cdb);
    if |Records(t)[t.block].bytes| == limit {
      ReadExactBlock(t, cdb);
    } else {
      ReadShorterBlock(t, cdb);
    }
  }

  lemma ReadExactBlock(t: Tape, cdb: seq<byte>)
    requires Valid(t) && |cdb| >= 6 && t.block < |Records(t)| && Records(t)[t.block].Data?
    requires BeValue(cdb[2..5]) == |Records(t)[t.block].bytes| > 0
    ensures var r := ExecRead6(t, cdb);
      var sense := Fit(r.sense, SENSE_INFO_LEN);
      && r.delivered && r.after == t.(block := t.block + 1) && r.data == Records(t)[t.block].bytes
      && !StopCode(sense) && ScsiSense.DiffBytes(sense) >= 0
  {
    ZeroSenseFields();
  }

  lemma ReadShorterBlock(t: Tape, cdb: seq<byte>)
    requires Valid(t) && |cdb| >= 6 && t.block < |Records(t)| && Records(t)[t.block].Data?
    requires BeValue(cdb[2..5]) > |Records(t)[t.block].bytes| && BeValue(cdb[2..5]) <= BLOCK
    ensures var r := ExecRead6(t, cdb);
      var sense := Fit(r.sense, SENSE_INFO_LEN);
      && r.delivered && r.after == t.(block := t.block + 1) && r.data == Records(t)[t.block].bytes
      && !StopCode(sense) && ScsiSense.DiffBytes(sense) >= 0
  {
    var want := BeValue(cdb[2..5]);
    var d := Records(t)[t.block].bytes;
    var r := ExecRead6(t, cdb);
    assert r == Check(t.(block := t.block + 1), ILI + NO_SENSE, 0x00, 0x00, want - |d|, d);
    ResidueSense(ILI + NO_SENSE, want - |d|);
  }

  /** Sense data with no additional code and a residue below 2^31: no stop code and a non-negative residue. */
  lemma ResidueSense(flags: byte, info: nat)
    requires info < 0x8000_0000
    ensures var sense := Sense(flags, 0x00, 0x00, info);
      Fit(sense, SENSE_INFO_LEN) == sense && !StopCode(sense) && ScsiSense.DiffBytes(sense) >= 0
  {
    var sense := Sense(flags, 0x00, 0x00, info);
    assert BeValue(sense[3..7]) == info;
  }

  /** The sense buffer as the pass-through call leaves it when the drive reports nothing: no stop code, no residue. */
  lemma ZeroSenseFields()
    ensures Fit(ZeroSense, SENSE_INFO_LEN) == ZeroSense
    ensures !StopCode(ZeroSense) && ScsiSense.DiffBytes(ZeroSense) == 0
  {
    AllZeroSense(ZeroSense);
  }

  lemma AllZeroSense(s: seq<byte>)
    requires |s| == SENSE_INFO_LEN && forall i :: 0 <= i < |s| ==> s[i] == 0
    ensures !StopCode(s) && ScsiSense.DiffBytes(s) == 0
  {
    assert AddCode(s) == 0;
    AllZeroValue(s[3..7]);
  }

  /** A string of zero bytes has value 0. */
  lemma {:induction false} AllZeroValue(s: seq<byte>)
    requires forall i :: 0 <= i < |s| ==> s[i] == 0
    ensures BeValue(s) == 0
  {
    if s != [] {
      AllZeroValue(s[..|s| - 1]);
    }
  }

  /** A READ(6) of `limit` bytes at a filemark or at end of data: delivered, no data, a stop code, no backtrack. */
  lemma ReadAtMarkOrEnd(t: Tape, limit: nat)
    requires Valid(t) && 0 < limit <= BLOCK
    requires t.block == |Records(t)| || Records(t)[t.block].FileMark?
    ensures var r := Execute(t, Read6Cdb(limit));
      var sense := Fit(r.sense, SENSE_INFO_LEN);
      && r.delivered && r.data == []
      && r.after == (if t.block == |Records(t)| then t else t.(block := t.block + 1))
      && StopCode(sense) && ScsiSense.DiffBytes(sense) >= 0
  {
    var cdb := Read6Cdb(limit);
    assert BeValue(cdb[2..5]) == limit;
    var r := Execute(t, cdb);
    assert r == ExecRead6(t, cdb);
    assert Fit(r.sense, SENSE_INFO_LEN) == r.sense;
    assert BeValue(r.sense[3..7]) == limit;
  }

  /** A delivered read that does not call for the backtrack appends the buffer, and stops on the ASC/ASCQ rule. */
  lemma PassWithoutBacktrack(exec: Device, iface: ScsiInterface, t: Tape, sizeLimit: u32, fixed: bool)
    requires var r := exec(t, Read6Cdb(Min(sizeLimit, BLOCK)));
      r.delivered && !Backtracks(sizeLimit, Fit(r.sense, SENSE_INFO_LEN))
    ensures var limit := Min(sizeLimit, BLOCK);
      var r := exec(t, Read6Cdb(limit));
      ReadPassWith(exec, iface, t, sizeLimit, fixed) == Pass(Fit(r.data, limit), StopCode(Fit(r.sense, SENSE_INFO_LEN)), None, r.after)
  {
  }

  /** A pass whose read calls for the auto-backtrack is the backtrack from the drive state after the read. */
  lemma PassWithBacktrack(exec: Device, iface: ScsiInterface, t: Tape, sizeLimit: u32, fixed: bool)
    requires var r := exec(t, Read6Cdb(Min(sizeLimit, BLOCK)));
      r.delivered && Backtracks(sizeLimit, Fit(r.sense, SENSE_INFO_LEN))
    ensures var limit := Min(sizeLimit, BLOCK);
      var r := exec(t, Read6Cdb(limit));
      var sense := Fit(r.sense, SENSE_INFO_LEN);
      ReadPassWith(exec, iface, t, sizeLimit, fixed)
        == BacktrackPass(exec, iface, r.after, Read6Cdb(limit), limit, Widened(sizeLimit, ScsiSense.DiffBytes(sense)),
                         Fit(r.data, limit), StopCode(sense), fixed)
  {
  }

  /** On the drive, a pass over a short data block appends it padded and goes on. */
  lemma PassOverShortBlock(iface: ScsiInterface, t: Tape, sizeLimit: u32, fixed: bool)
    requires Valid(t) && 0 < sizeLimit && t.block < |Records(t)|
    requires Records(t)[t.block].Data? && |Records(t)[t.block].bytes| <= Min(sizeLimit, BLOCK)
    ensures ReadPassWith(Execute, iface, t, sizeLimit, fixed)
      == Pass(Fit(Records(t)[t.block].bytes, Min(sizeLimit, BLOCK)), false, None, t.(block := t.block + 1))
  {
    ReadShortBlock(t, Min(sizeLimit, BLOCK));
    PassWithoutBacktrack(Execute, iface, t, sizeLimit, fixed);
  }

  /** On the drive, a pass at a filemark or at end of data appends a zeroed buffer and stops. */
  lemma PassAtMarkOrEnd(iface: ScsiInterface, t: Tape, sizeLimit: u32, fixed: bool)
    requires Valid(t) && 0 < sizeLimit
    requires t.block == |Records(t)| || Records(t)[t.block].FileMark?
    ensures ReadPassWith(Execute, iface, t, sizeLimit, fixed)
      == Pass(Zeros(Min(sizeLimit, BLOCK)), true, None, if t.block == |Records(t)| then t else t.(block := t.block + 1))
  {
    ReadAtMarkOrEnd(t, Min(sizeLimit, BLOCK));
    PassWithoutBacktrack(Execute, iface, t, sizeLimit, fixed);
    assert Fit([], Min(sizeLimit, BLOCK)) == Zeros(Min(sizeLimit, BLOCK));
  }

  /**
   * On the drive, over data blocks no longer than the limit up to a
   * filemark at j (or end of data at j), the loop returns every block
   * padded to the limit and one zeroed buffer for the mark, and stops just
   * past the mark; as written and corrected alike.
   */
  lemma ReadToFileMarkOnDrive(iface: ScsiInterface, t: Tape, sizeLimit: u32, fixed: bool, fuel: nat, j: nat)
    requires Valid(t) && 0 < sizeLimit
    requires t.block <= j <= |Records(t)| && (j < |Records(t)| ==> Records(t)[j].FileMark?)
    requires ShortBlocks(Records(t), t.block, j, Min(sizeLimit, BLOCK))
    requires fuel > j - t.block
    ensures var limit := Min(sizeLimit, BLOCK);
      PassLoop(PassOf(Execute, iface, sizeLimit, fixed), t, fuel, [])
        == Drain(Ok(Padded(Records(t)[t.block..j], limit) + Zeros(limit)), t.(block := if j < |Records(t)| then j + 1 else j))
  {
    var limit := Min(sizeLimit, BLOCK);
    var recs := Records(t);
    var pass := PassOf(Execute, iface, sizeLimit, fixed);
    var last := t.(block := if j < |recs| then j + 1 else j);
    forall k {:trigger pass(At(t, k))} | t.block <= k < j
      ensures pass(At(t, k)) == Pass(Fit(RecordBytes(recs[k]), limit), false, None, At(t, k + 1))
    {
      PassOverShortBlock(iface, At(t, k), sizeLimit, fixed);
    }
    PassAtMarkOrEnd(iface, At(t, j), sizeLimit, fixed);
    LoopOverRun(pass, t, t.block, recs, limit, j, last, fuel, []);
    assert At(t, t.block) == t;
    assert [] + Padded(recs[t.block..j], limit) == Padded(recs[t.block..j], limit);
  }

  /** A READ(6) of 64 KiB over a longer block: delivered, its first 64 KiB, a residue of 64 KiB less its length, no stop code. */
  lemma LongRead(t: Tape)
    requires Valid(t) && t.block < |Records(t)|
    requires Records(t)[t.block].Data? && BLOCK < |Records(t)[t.block].bytes| < GLOBAL_BLOCK_LIMIT
    ensures var r := Execute(t, Read6Cdb(BLOCK));
      var d := Records(t)[t.block].bytes;
      var sense := Fit(r.sense, SENSE_INFO_LEN);
      && r.delivered && r.after == t.(block := t.block + 1) && r.data == d[..BLOCK]
      && !StopCode(sense) && ScsiSense.DiffBytes(sense) == BLOCK - |d|
      && Fit(r.data, BLOCK) == d[..BLOCK]
  {
    var cdb := Read6Cdb(BLOCK);
    var d := Records(t)[t.block].bytes;
    var r := Execute(t, cdb);
    assert r.sense == Sense(ILI + NO_SENSE, 0x00, 0x00, BLOCK - |d|) && r.data == d[..BLOCK] && r.delivered
        && r.after == t.(block := t.block + 1) by {
      assert BeValue(cdb[2..5]) == BLOCK;
      assert r == ExecRead6(t, cdb);
    }
    OverlengthSense(BLOCK - |d|);
  }

  /** The sense of an overlength READ: a residue between -2^31 and 0, read back as it is, and no stop code. */
  lemma OverlengthSense(residue: int)
    requires -GLOBAL_BLOCK_LIMIT < residue < 0
    ensures var sense := Sense(ILI + NO_SENSE, 0x00, 0x00, residue);
      Fit(sense, SENSE_INFO_LEN) == sense && !StopCode(sense) && ScsiSense.DiffBytes(sense) == residue
  {
    var sense := Sense(ILI + NO_SENSE, 0x00, 0x00, residue);
    assert BeValue(sense[3..7]) == residue % U32_LIMIT;
  }

  /**
   * The auto-backtrack once the position is known to be at a block above
   * 0 and LOCATE to the previous block succeeds: the re-read decides its
   * result.
   */
  lemma BacktrackWith(exec: Device, iface: ScsiInterface, t: Tape, cdb: seq<byte>, limit: u32, widened: i32,
                      block: seq<byte>, stop: bool, fixed: bool, here: TapePosition, back: Tape)
    requires ReadPosition(exec, t) == Step(Ok(here), t) && here.blockNumber > 0
    requires Locate(exec, iface, t, here.blockNumber - 1, here.partition, Block) == Step(Ok(0), back)
    ensures var rr := exec(ReadPosition(exec, back).tape, cdb);
      var adjusted := Min(if widened < 0 then 0 else widened, limit);
      var reread := if rr.delivered && adjusted > 0 then Fit(rr.data, adjusted) else block;
      BacktrackPass(exec, iface, t, cdb, limit, widened, block, stop, fixed)
        == Pass(if fixed then reread else [], StopCode(Fit(rr.sense, SENSE_INFO_LEN)), None, rr.after)
  {
  }

  /**
   * The auto-backtrack after an overlength block on the drive: the
   * position is one past the block, LOCATE goes back to it, and the
   * re-read returns its first 64 KiB and moves past it again.
   */
  lemma BacktrackOnDrive(iface: ScsiInterface, t: Tape, widened: i32, block: seq<byte>, stop: bool, fixed: bool)
    requires Valid(t) && |t.partitions| <= 256 && t.block + 1 < U64_LIMIT && t.block < |Records(t)|
    requires iface.allowPartition && (iface.driveType == Standard || iface.driveType == M2488)
    requires Records(t)[t.block].Data? && BLOCK < |Records(t)[t.block].bytes| < GLOBAL_BLOCK_LIMIT
    requires widened >= BLOCK
    ensures BacktrackPass(Execute, iface, t.(block := t.block + 1), Read6Cdb(BLOCK), BLOCK, widened, block, stop, fixed)
      == Pass(if fixed then Records(t)[t.block].bytes[..BLOCK] else [], false, None, t.(block := t.block + 1))
  {
    var next := t.(block := t.block + 1);
    LocateBack(iface, t);
    ReadPositionReports(t);
    LongRead(t);
    BacktrackWith(Execute, iface, next, Read6Cdb(BLOCK), BLOCK, widened, block, stop, fixed, PositionOf(next), t);
  }

  /** One block past t, the drive reports that position, and LOCATE to the block before it brings the drive back to t. */
  lemma LocateBack(iface: ScsiInterface, t: Tape)
    requires Valid(t) && |t.partitions| <= 256 && t.block + 1 < U64_LIMIT && t.block < |Records(t)|
    requires iface.allowPartition && (iface.driveType == Standard || iface.driveType == M2488)
    ensures var next := t.(block := t.block + 1);
      var here := PositionOf(next);
      && ReadPosition(Execute, next) == Step(Ok(here), next) && here.blockNumber > 0
      && Locate(Execute, iface, next, here.blockNumber - 1, here.partition, Block) == Step(Ok(0), t)
  {
    var next := t.(block := t.block + 1);
    PositionPastBlock(t);
    var here := PositionOf(next);
    var back: u64 := here.blockNumber - 1;
    assert Valid(next) && here.partition < |next.partitions| && back <= |next.partitions[here.partition]|;
    assert Tape(next.partitions, here.partition, back) == t;
    LocateBlockAllowed(iface, next, back, here.partition);
  }

  /** One block past t, READ POSITION reports that block number in t's partition. */
  lemma PositionPastBlock(t: Tape)
    requires Valid(t) && |t.partitions| <= 256 && t.block + 1 < U64_LIMIT && t.block < |Records(t)|
    ensures var next := t.(block := t.block + 1);
      && ReadPosition(Execute, next) == Step(Ok(PositionOf(next)), next)
      && PositionOf(next).blockNumber == t.block + 1 && PositionOf(next).partition == t.partition
  {
    var next := t.(block := t.block + 1);
    assert Valid(next) by {
      assert next.partitions == t.partitions && next.partition == t.partition;
    }
    ReadPositionReports(next);
    SmallCasts(t.partition, t.block + 1);
  }

  lemma SmallCasts(p: nat, b: nat)
    requires p < 256 && b < U64_LIMIT
    ensures AsU8(p) == p && AsU64(b) == b
  {
  }

  /**
   * On the drive, a pass over a block longer than a 64 KiB limit (but
   * under 1 MiB) reads it, backs up over it, reads it again, and goes on
   * past it; as written nothing is appended, with `fixed` its first 64 KiB.
   */
  lemma PassOverLongBlock(iface: ScsiInterface, t: Tape, fixed: bool)
    requires Valid(t) && |t.partitions| <= 256 && t.block + 1 < U64_LIMIT && t.block < |Records(t)|
    requires iface.allowPartition && (iface.driveType == Standard || iface.driveType == M2488)
    requires Records(t)[t.block].Data? && BLOCK < |Records(t)[t.block].bytes| < GLOBAL_BLOCK_LIMIT
    ensures ReadPassWith(Execute, iface, t, BLOCK, fixed)
      == Pass(if fixed then Records(t)[t.block].bytes[..BLOCK] else [], false, None, t.(block := t.block + 1))
  {
    var d := Records(t)[t.block].bytes;
    var next := t.(block := t.block + 1);
    var r := Execute(t, Read6Cdb(BLOCK));
    var sense := Fit(r.sense, SENSE_INFO_LEN);
    assert r.delivered && r.after == next && Fit(r.data, BLOCK) == d[..BLOCK]
      && !StopCode(sense) && ScsiSense.DiffBytes(sense) == BLOCK - |d| by {
      LongRead(t);
    }
    assert Widened(BLOCK, BLOCK - |d|) == |d|;
    assert Min(BLOCK, BLOCK) == BLOCK;
    assert BacktrackPass(Execute, iface, next, Read6Cdb(BLOCK), BLOCK, |d| as i32, d[..BLOCK], false, fixed)
      == Pass(if fixed then d[..BLOCK] else [], false, None, next) by {
      BacktrackOnDrive(iface, t, |d| as i32, d[..BLOCK], false, fixed);
    }
    PassWithBacktrack(Execute, iface, t, BLOCK, fixed);
  }

  /** A loop whose first pass appends `first` and goes on, and whose second appends `second` and stops, returns the two. */
  lemma TwoPasses(pass: Tape -> Pass, t: Tape, next: Tape, last: Tape, first: seq<byte>, second: seq<byte>, fuel: nat)
    requires pass(t) == Pass(first, false, None, next) && pass(next) == Pass(second, true, None, last) && fuel >= 2
    ensures PassLoop(pass, t, fuel, []) == Drain(Ok(first + second), last)
  {
    assert [] + first == first;
  }

  /**
   * As written, a long block followed by a filemark yields only the zeroed
   * buffer of the mark: the long block's data is lost.
   */
  lemma LongBlockLost(iface: ScsiInterface, t: Tape, fuel: nat)
    requires Valid(t) && |t.partitions| <= 256 && t.block + 2 < U64_LIMIT && t.block + 1 < |Records(t)|
    requires iface.allowPartition && (iface.driveType == Standard || iface.driveType == M2488)
    requires Records(t)[t.block].Data? && BLOCK < |Records(t)[t.block].bytes| < GLOBAL_BLOCK_LIMIT
    requires Records(t)[t.block + 1].FileMark? && fuel >= 2
    ensures ReadToFileMark(Execute, iface, t, BLOCK, fuel) == Drain(Ok(Zeros(BLOCK)), t.(block := t.block + 2))
  {
    var next := t.(block := t.block + 1);
    PassOverLongBlock(iface, t, false);
    PassAtMarkOrEnd(iface, next, BLOCK, false);
    TwoPasses(PassOf(Execute, iface, BLOCK, false), t, next, t.(block := t.block + 2), [], Zeros(BLOCK), fuel);
    assert [] + Zeros(BLOCK) == Zeros(BLOCK);
  }

  /** Corrected, the long block's first 64 KiB come before the mark's buffer. */
  lemma LongBlockKept(iface: ScsiInterface, t: Tape, fuel: nat)
    requires Valid(t) && |t.partitions| <= 256 && t.block + 2 < U64_LIMIT && t.block + 1 < |Records(t)|
    requires iface.allowPartition && (iface.driveType == Standard || iface.driveType == M2488)
    requires Records(t)[t.block].Data? && BLOCK < |Records(t)[t.block].bytes| < GLOBAL_BLOCK_LIMIT
    requires Records(t)[t.block + 1].FileMark? && fuel >= 2
    ensures ReadToFileMarkFixed(Execute, iface, t, BLOCK, fuel)
      == Drain(Ok(Records(t)[t.block].bytes[..BLOCK] + Zeros(BLOCK)), t.(block := t.block + 2))
  {
    var next := t.(block := t.block + 1);
    PassOverLongBlock(iface, t, true);
    PassAtMarkOrEnd(iface, next, BLOCK, true);
    TwoPasses(PassOf(Execute, iface, BLOCK, true), t, next, t.(block := t.block + 2), Records(t)[t.block].bytes[..BLOCK], Zeros(BLOCK), fuel);
  }

  /** A drive that never takes a request: the pass-through call fails and leaves the sense buffer zero. */
  function Unresponsive(t: Tape, cdb: seq<byte>): Reply
  {
    Reply(false, [], ZeroSense, t)
  }

  /** As written, with a non-zero limit the loop never ends on a drive that fails every request. */
  lemma {:induction false} FailingDriveSpins(iface: ScsiInterface, t: Tape, sizeLimit: u32, fuel: nat, acc: seq<byte>)
    requires sizeLimit > 0
    ensures PassLoop(PassOf(Unresponsive, iface, sizeLimit, false), t, fuel, acc) == StillReading
    decreases fuel
  {
    if fuel > 0 {
      ZeroSenseFields();
      assert PassOf(Unresponsive, iface, sizeLimit, false)(t) == Pass([], false, None, t);
      FailingDriveSpins(iface, t, sizeLimit, fuel - 1, acc + []);
    }
  }

  /** Corrected, the first failed read ends the loop with nothing read. */
  lemma FailingDriveStops(iface: ScsiInterface, t: Tape, sizeLimit: u32, fuel: nat)
    requires fuel > 0
    ensures ReadToFileMarkFixed(Unresponsive, iface, t, sizeLimit, fuel) == Drain(Ok([]), t)
  {
    assert PassOf(Unresponsive, iface, sizeLimit, true)(t) == Pass([], true, None, t);
    var none: seq<byte> := [];
    assert none + none == none;
  }
}

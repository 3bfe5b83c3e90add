// Capacity figures of the direct-access LTFS layer (`src/ltfs/capacity.rs`):
// the capacity record, the space test, the media-type estimate and the way a
// remaining-capacity reading from cartridge memory is turned into a record.

module LtfsCapacity {
  import opened Wrappers
  import opened Bytes
  import opened ScsiTypes
  import TapeOpsCore

  /** `TapeCapacity`: total, used and available bytes. */
  datatype TapeCapacity = TapeCapacity(totalCapacity: u64, usedCapacity: u64, availableCapacity: u64)

  /**
   * `TapeCapacity::new`: the available bytes are what the used bytes leave of the
   * total, or none when more is used than the total.
   */
  function NewCapacity(total: u64, used: u64): (c: TapeCapacity)
    ensures c.totalCapacity == total && c.usedCapacity == used
    ensures used <= total ==> c.availableCapacity + used == total
    ensures used > total ==> c.availableCapacity == 0
  {
    TapeCapacity(total, used, TapeOpsCore.SaturatingSub(total, used))
  }

  /** `has_space_for`: the available bytes cover the request. */
  predicate HasSpaceFor(c: TapeCapacity, required: u64)
  {
    c.availableCapacity >= required
  }

  /** The figures of the unit test: 1000 total and 300 used leave 700, room for 500 but not 800. */
  lemma CapacityExample()
    ensures NewCapacity(1000, 300).availableCapacity == 700
    ensures HasSpaceFor(NewCapacity(1000, 300), 500)
    ensures !HasSpaceFor(NewCapacity(1000, 300), 800)
  {
  }

  /** Room for a request is room for any smaller one, and a fresh record has room for at most its total. */
  lemma SpaceForSmaller(c: TapeCapacity, a: u64, b: u64)
    requires HasSpaceFor(c, a) && b <= a
    ensures HasSpaceFor(c, b)
    ensures c == NewCapacity(c.totalCapacity, c.usedCapacity) ==> a <= c.totalCapacity
  {
  }

  /** `estimate_total_capacity`: the native capacity of the generation; other media count as 2.5 TB. */
  function EstimateTotalCapacity(media: Result<MediaType>): (r: Result<u64>)
    ensures media.Err? ==> r.Err? && r.error == media.error
    ensures media.Ok? ==> r.Ok? && 400_000_000_000 <= r.value <= 18_000_000_000_000
    ensures media.Ok? && !media.value.Lto? ==> r == Ok(2_500_000_000_000)
  {
    var m :- media;
    match m
    case Lto(Lto9, _) => Ok(18_000_000_000_000)
    case Lto(Lto8, _) => Ok(12_000_000_000_000)
    case Lto(Lto7, _) => Ok(6_000_000_000_000)
    case Lto(Lto6, _) => Ok(2_500_000_000_000)
    case Lto(Lto5, _) => Ok(1_500_000_000_000)
    case Lto(Lto4, _) => Ok(800_000_000_000)
    case Lto(Lto3, _) => Ok(400_000_000_000)
    case _ => Ok(2_500_000_000_000)
  }

  /** The order of the numbered generations, oldest first. */
  function GenRank(g: LtoGen): nat
  {
    match g
    case Lto3 => 3
    case Lto4 => 4
    case Lto5 => 5
    case Lto6 => 6
    case Lto7 => 7
    case Lto8 => 8
    case Lto9 => 9
    case LtoM8 => 0
  }

  /**
   * A later numbered generation never gets a smaller estimate, and the access
   * kind (rewritable, WORM, read-only) does not matter.
   */
  lemma EstimateGrowsWithGeneration(g: LtoGen, h: LtoGen, a: Access, b: Access)
    requires 3 <= GenRank(g) <= GenRank(h)
    ensures EstimateTotalCapacity(Ok(Lto(g, a))).value <= EstimateTotalCapacity(Ok(Lto(h, b))).value
    ensures EstimateTotalCapacity(Ok(Lto(g, a))) == EstimateTotalCapacity(Ok(Lto(g, b)))
  {
  }

  /** `estimate_capacity`: without cartridge memory half of the estimated total counts as used. */
  function EstimateCapacity(media: Result<MediaType>): (r: Result<TapeCapacity>)
    ensures media.Err? ==> r.Err?
    ensures r.Ok? ==> r.value.usedCapacity <= r.value.availableCapacity <= r.value.usedCapacity + 1
    ensures r.Ok? ==> r.value.usedCapacity + r.value.availableCapacity == r.value.totalCapacity
  {
    var total :- EstimateTotalCapacity(media);
    Ok(NewCapacity(total, total / 2))
  }

  const FALLBACK_REMAINING: u64 := 1_000_000_000_000

  /**
   * `calculate_used_capacity_from_mam`: the bytes written plus 5% for index
   * overhead (wrapping at 64 bits); the position-based fallback always fails.
   */
  function UsedFromMam(written: Result<u64>): (r: Result<u64>)
    ensures r.Ok? <==> written.Ok?
    ensures written.Ok? && written.value < U64_LIMIT / 2 ==> r.value == written.value + written.value / 20
  {
    match written
    case Ok(w) => Ok(AsU64(w + w / 20))
    case Err(_) => Fail(Scsi, "Position-based estimation not implemented")
  }

  /**
   * `get_remaining_capacity_from_mam`: the remaining-capacity attribute, else the
   * maximum-capacity attribute less the used bytes (saturating), else the wear
   * estimate; the position-based estimate always fails, and when everything
   * fails a conservative 1 TB is assumed. The attribute readings and the wear
   * estimate are parameters.
   */
  function RemainingFromMam(remainingAttr: Result<u64>, maxAttr: Result<u64>, written: Result<u64>, wear: Result<u64>): (r: Result<u64>)
    ensures r.Ok?
    ensures remainingAttr.Ok? ==> r.value == remainingAttr.value
    ensures remainingAttr.Err? && maxAttr.Ok? && written.Ok? ==> r.value <= maxAttr.value
    ensures remainingAttr.Err? && maxAttr.Ok? && written.Ok? ==>
      r.value as int == if UsedFromMam(written).value <= maxAttr.value then maxAttr.value - UsedFromMam(written).value else 0
    ensures remainingAttr.Err? && (maxAttr.Err? || written.Err?) && wear.Ok? ==> r.value == wear.value
    ensures remainingAttr.Err? && (maxAttr.Err? || written.Err?) && wear.Err? ==> r.value == FALLBACK_REMAINING
  {
    if remainingAttr.Ok? then remainingAttr
    else if maxAttr.Ok? && UsedFromMam(written).Ok? then
      Ok(TapeOpsCore.SaturatingSub(maxAttr.value, UsedFromMam(written).value))
    else if wear.Ok? then wear
    else Ok(FALLBACK_REMAINING)
  }

  /**
   * `get_capacity_info`: a remaining-capacity reading from cartridge memory is
   * combined with the estimated total; without a reading the half-used estimate
   * is taken.
   */
  function GetCapacityInfo(mamRemaining: Result<u64>, media: Result<MediaType>): (r: Result<TapeCapacity>)
    ensures mamRemaining.Err? ==> r == EstimateCapacity(media)
    ensures mamRemaining.Ok? && media.Err? ==> r.Err?
  {
    match mamRemaining
    case Ok(remaining) =>
      var total :- EstimateTotalCapacity(media);
      Ok(NewCapacity(total, TapeOpsCore.SaturatingSub(total, remaining)))
    case Err(_) => EstimateCapacity(media)
  }

  /**
   * A reading within the estimated total comes back as the available capacity;
   * a larger one is capped at the total.
   */
  lemma ReadingBecomesAvailable(remaining: u64, media: MediaType)
    ensures var r := GetCapacityInfo(Ok(remaining), Ok(media));
      var total := EstimateTotalCapacity(Ok(media)).value;
      && r.Ok?
      && r.value.totalCapacity == total
      && r.value.availableCapacity == (if remaining <= total then remaining else total)
      && r.value.usedCapacity + r.value.availableCapacity == total
  {
  }

  /**
   * Because the cartridge-memory chain always ends in a value, the capacity
   * record never falls back to the half-used estimate: it fails only when the
   * media type cannot be read.
   */
  lemma CapacityAlwaysFromMam(remainingAttr: Result<u64>, maxAttr: Result<u64>, written: Result<u64>, wear: Result<u64>, media: Result<MediaType>)
    ensures var reading := RemainingFromMam(remainingAttr, maxAttr, written, wear);
      var r := GetCapacityInfo(reading, media);
      && (r.Ok? <==> media.Ok?)
      && (r.Ok? ==> r.value.availableCapacity == (if reading.value <= r.value.totalCapacity then reading.value else r.value.totalCapacity))
  {
    var reading := RemainingFromMam(remainingAttr, maxAttr, written, wear);
    if media.Ok? {
      ReadingBecomesAvailable(reading.value, media.value);
    }
  }

  /** `check_available_space` of the capacity manager: the capacity record decides. */
  function CheckAvailableSpace(mamRemaining: Result<u64>, media: Result<MediaType>, required: u64): (r: Result<bool>)
    ensures r.Ok? <==> GetCapacityInfo(mamRemaining, media).Ok?
    ensures r.Ok? ==> (r.value <==> GetCapacityInfo(mamRemaining, media).value.availableCapacity >= required)
  {
    var capacity :- GetCapacityInfo(mamRemaining, media);
    Ok(HasSpaceFor(capacity, required))
  }

  /** With a reading at hand, the check compares the request with the reading, capped at the total. */
  lemma CheckUsesReading(remaining: u64, media: MediaType, required: u64)
    requires remaining <= EstimateTotalCapacity(Ok(media)).value
    ensures CheckAvailableSpace(Ok(remaining), Ok(media), required) == Ok(remaining >= required)
  {
    ReadingBecomesAvailable(remaining, media);
  }
}

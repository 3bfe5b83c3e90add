// The SCSI value types of scsi/types.rs: LTO media types and their codes,
// the SPACE and LOCATE destination codes, drive types and the position a
// READ POSITION reply describes.

module ScsiTypes {
  import opened Wrappers
  import opened Bytes
  import opened Strings

  /** LTO generations with a medium type code; M8 is LTO-7 media initialised as type M. */
  datatype LtoGen = Lto3 | Lto4 | Lto5 | Lto6 | Lto7 | Lto8 | Lto9 | LtoM8

  /** Rewritable, write-once and read-only cartridges of one generation. */
  datatype Access = Rw | Worm | Ro

  /**
   * `MediaType`: the 24 known LTO variants are grouped by generation and
   * access, so `Lto(Lto5, Worm)` is the source's `Lto5Worm`.
   */
  datatype MediaType = NoTape | Lto(gen: LtoGen, access: Access) | Unknown(code: u16)

  /** The low byte of a generation's medium type code. */
  function GenCode(g: LtoGen): byte
  {
    match g
    case Lto3 => 0x44
    case Lto4 => 0x46
    case Lto5 => 0x58
    case Lto6 => 0x5A
    case Lto7 => 0x5C
    case Lto8 => 0x5E
    case Lto9 => 0x60
    case LtoM8 => 0x5D
  }

  /** The high byte: 00h rewritable, 01h WORM, 02h read-only. */
  function AccessCode(a: Access): byte
  {
    match a
    case Rw => 0
    case Worm => 1
    case Ro => 2
  }

  /** The medium type code of a known variant. */
  function MediaCode(g: LtoGen, a: Access): (c: u16)
    ensures c / 256 == AccessCode(a) && c % 256 == GenCode(g)
  {
    AccessCode(a) * 256 + GenCode(g)
  }

  /** The 24 codes `from_media_type_code` knows. */
  const KnownCodes: set<u16> := {
    0x0044, 0x0144, 0x0244, 0x0046, 0x0146, 0x0246, 0x0058, 0x0158, 0x0258,
    0x005A, 0x015A, 0x025A, 0x005C, 0x015C, 0x025C, 0x005E, 0x015E, 0x025E,
    0x0060, 0x0160, 0x0260, 0x005D, 0x015D, 0x025D }

  /** `MediaType::from_media_type_code`. */
  function FromMediaTypeCode(code: u16): (m: MediaType)
    ensures m.Unknown? <==> code !in KnownCodes
    ensures m.Unknown? ==> m.code == code
    ensures m.Lto? ==> MediaCode(m.gen, m.access) == code
  {
    if code == 0x0044 then Lto(Lto3, Rw)
    else if code == 0x0144 then Lto(Lto3, Worm)
    else if code == 0x0244 then Lto(Lto3, Ro)
    else if code == 0x0046 then Lto(Lto4, Rw)
    else if code == 0x0146 then Lto(Lto4, Worm)
    else if code == 0x0246 then Lto(Lto4, Ro)
    else if code == 0x0058 then Lto(Lto5, Rw)
    else if code == 0x0158 then Lto(Lto5, Worm)
    else if code == 0x0258 then Lto(Lto5, Ro)
    else if code == 0x005A then Lto(Lto6, Rw)
    else if code == 0x015A then Lto(Lto6, Worm)
    else if code == 0x025A then Lto(Lto6, Ro)
    else if code == 0x005C then Lto(Lto7, Rw)
    else if code == 0x015C then Lto(Lto7, Worm)
    else if code == 0x025C then Lto(Lto7, Ro)
    else if code == 0x005E then Lto(Lto8, Rw)
    else if code == 0x015E then Lto(Lto8, Worm)
    else if code == 0x025E then Lto(Lto8, Ro)
    else if code == 0x0060 then Lto(Lto9, Rw)
    else if code == 0x0160 then Lto(Lto9, Worm)
    else if code == 0x0260 then Lto(Lto9, Ro)
    else if code == 0x005D then Lto(LtoM8, Rw)
    else if code == 0x015D then Lto(LtoM8, Worm)
    else if code == 0x025D then Lto(LtoM8, Ro)
    else Unknown(code)
  }

  /** Every known variant's code is in the table and maps back to that variant. */
  lemma MediaCodeRoundTrip(g: LtoGen, a: Access)
    ensures MediaCode(g, a) in KnownCodes
    ensures FromMediaTypeCode(MediaCode(g, a)) == Lto(g, a)
  {
    var c := MediaCode(g, a);
    assert c in KnownCodes by {
      match g
      case Lto3 => {}
      case Lto4 => {}
      case Lto5 => {}
      case Lto6 => {}
      case Lto7 => {}
      case Lto8 => {}
      case Lto9 => {}
      case LtoM8 => {}
    }
    var m := FromMediaTypeCode(c);
    assert m.Lto? && MediaCode(m.gen, m.access) == c;
    assert GenCode(m.gen) == GenCode(g) && AccessCode(m.access) == AccessCode(a);
    GenCodeInjective(m.gen, g);
  }

  lemma GenCodeInjective(g: LtoGen, h: LtoGen)
    requires GenCode(g) == GenCode(h)
    ensures g == h
  {
  }

  function GenName(g: LtoGen): string
  {
    match g
    case Lto3 => "3"
    case Lto4 => "4"
    case Lto5 => "5"
    case Lto6 => "6"
    case Lto7 => "7"
    case Lto8 => "8"
    case Lto9 => "9"
    case LtoM8 => "M8"
  }

  function AccessName(a: Access): string
  {
    match a
    case Rw => "RW"
    case Worm => "WORM"
    case Ro => "RO"
  }

  /** `MediaType::description`: "LTO" and the generation, a space, and RW, WORM or RO. */
  function Description(m: MediaType): (d: string)
    ensures m.Lto? ==> d == "LTO" + GenName(m.gen) + " " + AccessName(m.access)
  {
    match m
    case NoTape => "No tape loaded"
    case Lto(g, a) => "LTO" + GenName(g) + " " + AccessName(a)
    case Unknown(_) => "Unknown media type"
  }

  /**
   * Codes 01xxh describe WORM media and 02xxh read-only media: the
   * description of a known code ends in " WORM", " RO" or " RW" exactly as
   * its high byte is 1, 2 or 0.
   */
  lemma DescriptionAccess(code: u16)
    requires code in KnownCodes
    ensures EndsWith(Description(FromMediaTypeCode(code)), " WORM") <==> code / 256 == 1
    ensures EndsWith(Description(FromMediaTypeCode(code)), " RO") <==> code / 256 == 2
    ensures EndsWith(Description(FromMediaTypeCode(code)), " RW") <==> code / 256 == 0
  {
    var m := FromMediaTypeCode(code);
    var d := Description(m);
    var pre := "LTO" + GenName(m.gen);
    assert d == pre + " " + AccessName(m.access);
    match m.access
    case Rw => {
      assert d[|d| - 3..] == " RW";
      assert d[|d| - 5..] != " WORM" by { assert d[|d| - 1] == 'W'; }
    }
    case Worm => {
      assert d[|d| - 5..] == " WORM";
      assert d[|d| - 3..] == "ORM";
    }
    case Ro => {
      assert d[|d| - 3..] == " RO";
      assert d[|d| - 5..] != " WORM" by { assert d[|d| - 1] == 'O'; }
    }
  }

  /** `SpaceType`, the code field of SPACE(6). */
  datatype SpaceType = Blocks | FileMarks | SequentialFileMarks | EndOfData

  function SpaceTypeCode(s: SpaceType): (c: byte)
    ensures c < 4
  {
    match s
    case Blocks => 0
    case FileMarks => 1
    case SequentialFileMarks => 2
    case EndOfData => 3
  }

  function SpaceTypeOf(c: byte): (s: Option<SpaceType>)
    ensures s.Some? <==> c < 4
  {
    if c == 0 then Some(Blocks)
    else if c == 1 then Some(FileMarks)
    else if c == 2 then Some(SequentialFileMarks)
    else if c == 3 then Some(EndOfData)
    else None
  }

  /** The SPACE codes are 0, 1, 2, 3 and decode back to their type. */
  lemma SpaceTypeRoundTrip(s: SpaceType)
    ensures SpaceTypeOf(SpaceTypeCode(s)) == Some(s)
  {
  }

  /** `LocateDestType`, the destination type field of LOCATE(16). */
  datatype LocateDestType = Block | FileMark | EOD

  function DestCode(d: LocateDestType): (c: byte)
    ensures c == 0 || c == 1 || c == 3
  {
    match d
    case Block => 0
    case FileMark => 1
    case EOD => 3
  }

  function DestOf(c: byte): (d: Option<LocateDestType>)
    ensures d.Some? <==> c == 0 || c == 1 || c == 3
  {
    if c == 0 then Some(Block)
    else if c == 1 then Some(FileMark)
    else if c == 3 then Some(EOD)
    else None
  }

  /** The destination codes are 0, 1 and 3 and decode back to their type. */
  lemma DestRoundTrip(d: LocateDestType)
    ensures DestOf(DestCode(d)) == Some(d)
  {
  }

  /** `DriveType`: the drive families with their own LOCATE handling. */
  datatype DriveType = Standard | SLR3 | SLR1 | M2488

  /** `TapePosition`: what a READ POSITION reply says. */
  datatype TapePosition = TapePosition(
    partition: u8,
    blockNumber: u64,
    fileNumber: u64,
    setNumber: u64,
    endOfData: bool,
    beginningOfPartition: bool)
}

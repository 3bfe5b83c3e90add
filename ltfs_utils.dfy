// Helpers shared by the direct-access LTFS layer (`src/ltfs/utils.rs`): the search
// for the end of an index in a byte buffer and the index location record.

module LtfsUtils {
  import opened Wrappers
  import opened Bytes
  import opened Strings

  /** The bytes of "</ltfsindex>". */
  const END_TAG: seq<byte> := [0x3C, 0x2F, 0x6C, 0x74, 0x66, 0x73, 0x69, 0x6E, 0x64, 0x65, 0x78, 0x3E]

  const SLASH: byte := 0x2F

  /** Where an index was found: partition number, first block and XML length. */
  datatype IndexLocation = IndexLocation(partition: u8, startBlock: u64, xmlSize: nat)

  /**
   * `find_xml_end`: the position just past the first "</ltfsindex>", or None when
   * the buffer holds none.
   */
  function FindXmlEnd(buffer: seq<byte>): (r: Option<nat>)
    ensures r.Some? <==> Contains(buffer, END_TAG)
    ensures r.Some? ==> |END_TAG| <= r.value <= |buffer| && EndsWith(buffer[..r.value], END_TAG)
    ensures r.Some? ==> forall j :: 0 <= j < r.value - |END_TAG| ==> !MatchAt(buffer, END_TAG, j)
  {
    match Find(buffer, END_TAG)
    case Some(p) =>
      assert buffer[..p + |END_TAG|][p..] == buffer[p..p + |END_TAG|];
      Some(p + |END_TAG|)
    case None => None
  }

  /** A buffer holding no '/' cannot hold the closing tag. */
  lemma NoSlashNoEnd(buffer: seq<byte>)
    requires forall i :: 0 <= i < |buffer| ==> buffer[i] != SLASH
    ensures FindXmlEnd(buffer).None?
  {
    forall j: nat | j + |END_TAG| <= |buffer|
      ensures !MatchAt(buffer, END_TAG, j)
    {
      assert buffer[j..j + |END_TAG|][1] == buffer[j + 1];
    }
    ContainsIff(buffer, END_TAG);
  }

  /** A prefix holding no '/' followed by the closing tag ends exactly at the end of the buffer. */
  lemma {:induction false} EndAfterSlashFreePrefix(prefix: seq<byte>)
    requires forall i :: 0 <= i < |prefix| ==> prefix[i] != SLASH
    ensures FindXmlEnd(prefix + END_TAG) == Some(|prefix| + |END_TAG|)
  {
    var s := prefix + END_TAG;
    forall j | 0 <= j < |prefix|
      ensures !MatchAt(s, END_TAG, j)
    {
      if j + 1 < |prefix| {
        assert s[j + 1] == prefix[j + 1];
      }
      assert s[j + 1] != SLASH;
    }
    MatchAfter(prefix, END_TAG, []);
    assert prefix + END_TAG + [] == s;
    FindFromFirst(s, END_TAG, 0, |prefix|);
  }
}

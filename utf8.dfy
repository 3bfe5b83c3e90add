// UTF-8 as Rust's String uses it (the well-formed byte sequences of RFC 3629,
// section 4): encoding, the byte length `str::len`, strict decoding
// (`String::from_utf8`, `read_to_string`) and lossy decoding
// (`String::from_utf8_lossy`, one U+FFFD per maximal invalid subpart).

module Utf8 {
  import opened Wrappers
  import opened Bytes

  predicate IsCont(b: byte) { 0x80 <= b <= 0xBF }

  /** The length of the sequence a lead byte announces, or 0 if it cannot start one. */
  function LeadLength(b0: byte): nat
  {
    if b0 < 0x80 then 1
    else if 0xC2 <= b0 <= 0xDF then 2
    else if 0xE0 <= b0 <= 0xEF then 3
    else if 0xF0 <= b0 <= 0xF4 then 4
    else 0
  }

  /** The allowed second byte after a multi-byte lead (it excludes overlongs, surrogates and values past U+10FFFF). */
  predicate SecondOk(b0: byte, b1: byte)
  {
    if b0 == 0xE0 then 0xA0 <= b1 <= 0xBF
    else if b0 == 0xED then 0x80 <= b1 <= 0x9F
    else if b0 == 0xF0 then 0x90 <= b1 <= 0xBF
    else if b0 == 0xF4 then 0x80 <= b1 <= 0x8F
    else IsCont(b1)
  }

  /** A complete well-formed sequence starts at index i. */
  predicate ValidAt(b: seq<byte>, i: nat)
  {
    i < |b| && LeadLength(b[i]) > 0 && i + LeadLength(b[i]) <= |b|
    && (LeadLength(b[i]) >= 2 ==> SecondOk(b[i], b[i + 1]))
    && (LeadLength(b[i]) >= 3 ==> IsCont(b[i + 2]))
    && (LeadLength(b[i]) == 4 ==> IsCont(b[i + 3]))
  }

  predicate IsScalar(v: int) { 0 <= v < 0xD800 || 0xE000 <= v <= 0x10FFFF }

  /** The scalar value of the well-formed sequence at i. */
  function ValueAt(b: seq<byte>, i: nat): (v: int)
    requires ValidAt(b, i)
    ensures IsScalar(v)
  {
    var n := LeadLength(b[i]);
    var b0 := b[i] as int;
    if n == 1 then b0
    else
      var b1 := b[i + 1] as int - 0x80;
      if n == 2 then (b0 - 0xC0) * 64 + b1
      else
        var b2 := b[i + 2] as int - 0x80;
        if n == 3 then (b0 - 0xE0) * 4096 + b1 * 64 + b2
        else (b0 - 0xF0) * 262144 + b1 * 4096 + b2 * 64 + (b[i + 3] as int - 0x80)
  }

  /**
   * How many bytes an invalid position consumes before U+FFFD is emitted: the
   * longest prefix of a well-formed sequence found there (at least one byte).
   */
  function SubpartLength(b: seq<byte>, i: nat): (n: nat)
    requires i < |b| && !ValidAt(b, i)
    ensures 1 <= n && i + n <= |b|
  {
    var len := LeadLength(b[i]);
    if len <= 1 then 1
    else if i + 1 >= |b| || !SecondOk(b[i], b[i + 1]) then 1
    else if len == 2 || i + 2 >= |b| || !IsCont(b[i + 2]) then 2
    else 3
  }

  /** Strict decoding of b[i..]: None as soon as an ill-formed sequence is met. */
  function DecodeFrom(b: seq<byte>, i: nat): Option<string>
    requires i <= |b|
    decreases |b| - i
  {
    if i == |b| then Some([])
    else if !ValidAt(b, i) then None
    else
      match DecodeFrom(b, i + LeadLength(b[i]))
      case None => None
      case Some(rest) => Some([ValueAt(b, i) as char] + rest)
  }

  /** `String::from_utf8`. */
  function Decode(b: seq<byte>): Option<string>
  {
    DecodeFrom(b, 0)
  }

  /** Every character takes at least one byte: the text is no longer than the bytes. */
  lemma {:induction false} DecodeFromShorter(b: seq<byte>, i: nat)
    requires i <= |b|
    ensures DecodeFrom(b, i).Some? ==> |DecodeFrom(b, i).value| <= |b| - i
    decreases |b| - i
  {
    if i < |b| && ValidAt(b, i) {
      DecodeFromShorter(b, i + LeadLength(b[i]));
    }
  }

  /** Lossy decoding of b[i..]: each maximal invalid subpart becomes U+FFFD. */
  function DecodeLossyFrom(b: seq<byte>, i: nat): string
    requires i <= |b|
    decreases |b| - i
  {
    if i == |b| then []
    else if ValidAt(b, i) then [ValueAt(b, i) as char] + DecodeLossyFrom(b, i + LeadLength(b[i]))
    else ['\U{FFFD}'] + DecodeLossyFrom(b, i + SubpartLength(b, i))
  }

  /** `String::from_utf8_lossy`. */
  function DecodeLossy(b: seq<byte>): string
  {
    DecodeLossyFrom(b, 0)
  }

  /** The UTF-8 encoding of one character. */
  function EncodeChar(c: char): (r: seq<byte>)
    ensures 1 <= |r| <= 4
  {
    var v := c as int;
    if v < 0x80 then [v]
    else if v < 0x800 then [0xC0 + v / 64, 0x80 + v % 64]
    else if v < 0x10000 then [0xE0 + v / 4096, 0x80 + (v / 64) % 64, 0x80 + v % 64]
    else [0xF0 + v / 262144, 0x80 + (v / 4096) % 64, 0x80 + (v / 64) % 64, 0x80 + v % 64]
  }

  function Encode(s: string): seq<byte>
  {
    if s == [] then [] else EncodeChar(s[0]) + Encode(s[1..])
  }

  /** Rust `str::len`: the length in bytes of the UTF-8 encoding. */
  function Utf8Len(s: string): nat
  {
    |Encode(s)|
  }

  /** The two-byte split of a value in 0x80..0x7FF. */
  lemma Split2(v: int)
    requires 0x80 <= v < 0x800
    ensures 2 <= v / 64 < 32 && (v / 64) * 64 + v % 64 == v
  {
  }

  /** The three-byte split of a scalar value in 0x800..0xFFFF: no overlong form, no surrogate. */
  lemma Split3(v: int)
    requires 0x800 <= v < 0x10000 && IsScalar(v)
    ensures v / 4096 < 16 && (v / 4096) * 4096 + ((v / 64) % 64) * 64 + v % 64 == v
    ensures v / 4096 == 0 ==> (v / 64) % 64 >= 32
    ensures v / 4096 == 13 ==> (v / 64) % 64 < 32
  {
    var q := v / 64;
    assert v == q * 64 + v % 64;
    assert q / 64 == v / 4096;
    assert q == (q / 64) * 64 + q % 64;
  }

  /** The four-byte split of a scalar value in 0x10000..0x10FFFF. */
  lemma Split4(v: int)
    requires 0x10000 <= v <= 0x10FFFF
    ensures 0 <= v / 262144 <= 4
    ensures (v / 262144) * 262144 + ((v / 4096) % 64) * 4096 + ((v / 64) % 64) * 64 + v % 64 == v
    ensures v / 262144 == 0 ==> (v / 4096) % 64 >= 16
    ensures v / 262144 == 4 ==> (v / 4096) % 64 < 16
  {
    var q := v / 64;
    var q2 := q / 64;
    assert v == q * 64 + v % 64;
    assert q == q2 * 64 + q % 64;
    assert q2 == v / 4096;
    assert q2 / 64 == v / 262144;
    assert q2 == (q2 / 64) * 64 + q2 % 64;
  }

  /** The encoding of a character is one well-formed sequence that decodes back to it. */
  lemma EncodeCharValid(c: char, rest: seq<byte>)
    ensures ValidAt(EncodeChar(c) + rest, 0)
    ensures LeadLength((EncodeChar(c) + rest)[0]) == |EncodeChar(c)|
    ensures ValueAt(EncodeChar(c) + rest, 0) == c as int
  {
    var v := c as int;
    var e := EncodeChar(c);
    var b := e + rest;
    assert forall k :: 0 <= k < |e| ==> b[k] == e[k];
    if v < 0x80 {
    } else if v < 0x800 {
      Split2(v);
    } else if v < 0x10000 {
      Split3(v);
    } else {
      Split4(v);
    }
  }

  /** Round trip: decoding the encoding of any string gives the string back. */
  lemma {:induction false} DecodeEncode(s: string)
    ensures Decode(Encode(s)) == Some(s)
  {
    DecodeEncodeFrom(s, []);
    assert [] + Encode(s) == Encode(s);
  }

  lemma {:induction false} DecodeEncodeFrom(s: string, prefix: seq<byte>)
    ensures DecodeFrom(prefix + Encode(s), |prefix|) == Some(s)
    decreases |s|
  {
    var b := prefix + Encode(s);
    if s != [] {
      var e := EncodeChar(s[0]);
      EncodeCharValid(s[0], Encode(s[1..]));
      assert b[|prefix|..] == e + Encode(s[1..]);
      ShiftValid(b, prefix, e + Encode(s[1..]));
      assert (prefix + e) + Encode(s[1..]) == b;
      DecodeEncodeFrom(s[1..], prefix + e);
      assert (s[0] as int) as char == s[0];
      assert [s[0]] + s[1..] == s;
    }
  }

  /** Validity and value at the start of t carry over to the same bytes after a prefix. */
  lemma ShiftValid(b: seq<byte>, prefix: seq<byte>, t: seq<byte>)
    requires b == prefix + t && ValidAt(t, 0)
    ensures ValidAt(b, |prefix|) && LeadLength(b[|prefix|]) == LeadLength(t[0])
    ensures ValueAt(b, |prefix|) == ValueAt(t, 0)
  {
    var n := LeadLength(t[0]);
    assert forall k :: 0 <= k < n ==> b[|prefix| + k] == t[k];
  }

  /** On pure ASCII, strict and lossy decoding are both the byte-for-character identity. */
  lemma {:induction false} AsciiDecode(b: seq<byte>, i: nat)
    requires i <= |b| && forall k :: i <= k < |b| ==> b[k] < 0x80
    ensures DecodeFrom(b, i) == Some(DecodeLossyFrom(b, i))
    ensures |DecodeLossyFrom(b, i)| == |b| - i
    ensures forall k :: 0 <= k < |b| - i ==> DecodeLossyFrom(b, i)[k] as int == b[i + k]
    decreases |b| - i
  {
    if i < |b| {
      assert ValidAt(b, i) && LeadLength(b[i]) == 1;
      AsciiDecode(b, i + 1);
    }
  }
}

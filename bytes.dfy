// Bytes and the fixed-width integers of the source: big- and little-endian
// decoding and encoding, and the wrap-around of Rust's `as` casts.

module Bytes {

  /** One octet, as an integer 0..255 (bit operations are written as arithmetic). */
  type byte = b: int | 0 <= b < 256

  const U8_LIMIT: nat := 0x100
  const U16_LIMIT: nat := 0x1_0000
  const U24_LIMIT: nat := 0x100_0000
  const U32_LIMIT: nat := 0x1_0000_0000
  const U64_LIMIT: nat := 0x1_0000_0000_0000_0000

  type u8 = x: int | 0 <= x < 0x100
  type u16 = x: int | 0 <= x < 0x1_0000
  type u32 = x: int | 0 <= x < 0x1_0000_0000
  type u64 = x: int | 0 <= x < 0x1_0000_0000_0000_0000
  type i32 = x: int | -0x8000_0000 <= x < 0x8000_0000

  function Pow256(n: nat): (r: nat)
    ensures r >= 1
  {
    if n == 0 then 1 else 256 * Pow256(n - 1)
  }

  lemma Pow256Values()
    ensures Pow256(1) == 0x100 && Pow256(2) == 0x1_0000 && Pow256(3) == 0x100_0000
    ensures Pow256(4) == 0x1_0000_0000 && Pow256(8) == 0x1_0000_0000_0000_0000
  {
    assert Pow256(1) == 0x100;
    assert Pow256(2) == 0x1_0000;
    assert Pow256(3) == 0x100_0000;
    assert Pow256(4) == 0x1_0000_0000;
    assert Pow256(5) == 0x100_0000_0000;
    assert Pow256(6) == 0x1_0000_0000_0000;
    assert Pow256(7) == 0x100_0000_0000_0000;
  }

  /** The unsigned value of a big-endian byte string. */
  function BeValue(s: seq<byte>): nat
  {
    if s == [] then 0 else BeValue(s[..|s| - 1]) * 256 + s[|s| - 1]
  }

  /** The unsigned value of a little-endian byte string. */
  function LeValue(s: seq<byte>): nat
  {
    if s == [] then 0 else s[0] + 256 * LeValue(s[1..])
  }

  /** The low n bytes of v (two's complement when v < 0), most significant first. */
  function BeBytes(v: int, n: nat): (r: seq<byte>)
    ensures |r| == n
    decreases n
  {
    if n == 0 then [] else BeBytes(v / 256, n - 1) + [v % 256]
  }

  lemma {:induction false} BeValueBound(s: seq<byte>)
    ensures BeValue(s) < Pow256(|s|)
  {
    if s != [] {
      BeValueBound(s[..|s| - 1]);
    }
  }

  lemma {:induction false} LeValueBound(s: seq<byte>)
    ensures LeValue(s) < Pow256(|s|)
  {
    if s != [] {
      LeValueBound(s[1..]);
    }
  }

  /** Encoding n bytes and decoding them gives back v modulo 256^n. */
  lemma {:induction false} BeRoundTrip(v: int, n: nat)
    ensures BeValue(BeBytes(v, n)) == v % Pow256(n)
    decreases n
  {
    if n > 0 {
      var r := BeBytes(v, n);
      assert r[..|r| - 1] == BeBytes(v / 256, n - 1);
      BeRoundTrip(v / 256, n - 1);
      DivModStep(v, Pow256(n - 1));
    }
  }

  /** A value below 2^32 reads back from its four big-endian bytes. */
  lemma Be4ReadsBack(v: int)
    requires 0 <= v < 0x1_0000_0000
    ensures BeValue(BeBytes(v, 4)) == v
  {
    BeRoundTrip(v, 4);
    Pow256Values();
    ModBelow(v, Pow256(4));
  }

  /** A value below the modulus is its own remainder. */
  lemma ModBelow(v: int, m: int)
    requires 0 <= v < m
    ensures v % m == v
  {
  }

  lemma DivModStep(v: int, p: nat)
    requires p >= 1
    ensures ((v / 256) % p) * 256 + v % 256 == v % (256 * p)
  {
    var q, a := v / 256, v % 256;
    var q2, b := q / p, q % p;
    calc {
      v;
      q * 256 + a;
      (q2 * p + b) * 256 + a;
      { assert (q2 * p + b) * 256 == q2 * (256 * p) + b * 256; }
      q2 * (256 * p) + (b * 256 + a);
    }
    assert b * 256 + a < 256 * p by {
      assert b <= p - 1;
      assert b * 256 <= (p - 1) * 256;
    }
    ModUnique(v, 256 * p, q2, b * 256 + a);
  }

  lemma ModUnique(v: int, d: int, q: int, r: int)
    requires d > 0 && v == q * d + r && 0 <= r < d
    ensures v % d == r && v / d == q
  {
    var n, m := v / d, v % d;
    assert v == n * d + m;
    var k := q - n;
    assert k * d == q * d - n * d;
    assert k * d == m - r;
    assert k == 0;
  }

  /** Decoding a big-endian string and encoding the value again gives the same bytes. */
  lemma {:induction false} BeBytesOfValue(s: seq<byte>)
    ensures BeBytes(BeValue(s), |s|) == s
  {
    if s != [] {
      var init := s[..|s| - 1];
      var v := BeValue(s);
      assert v / 256 == BeValue(init);
      assert v % 256 == s[|s| - 1];
      BeBytesOfValue(init);
    }
  }

  lemma DivDiv(v: int, a: nat, b: nat)
    requires a > 0 && b > 0
    ensures v / a / b == v / (a * b)
  {
    var q, r := v / a, v % a;
    var q2, r2 := q / b, q % b;
    var ab := a * b;
    assert ab > 0;
    assert v == q * a + r;
    assert q == q2 * b + r2;
    assert q * a == q2 * ab + r2 * a by {
      MulStep(q2, b, r2, a);
    }
    assert r2 * a + r < ab by {
      assert r2 <= b - 1;
      MulMono(r2, b - 1, a);
      assert (b - 1) * a == ab - a;
    }
    ModUnique(v, ab, q2, r2 * a + r);
  }

  lemma MulStep(x: int, b: int, y: int, a: int)
    ensures (x * b + y) * a == x * (a * b) + y * a
  {
  }

  lemma MulMono(x: int, y: int, a: nat)
    requires x <= y
    ensures x * a <= y * a
  {
  }

  /** Byte k of the n-byte encoding is v shifted right by 8 * (n - 1 - k), masked to 8 bits. */
  lemma {:induction false} BeBytesAt(v: int, n: nat, k: nat)
    requires k < n
    ensures BeBytes(v, n)[k] == (v / Pow256(n - 1 - k)) % 256
    decreases n
  {
    if k < n - 1 {
      BeBytesAt(v / 256, n - 1, k);
      DivDiv(v, 256, Pow256(n - 2 - k));
    }
  }

  /** The encoding only depends on v modulo 256^n. */
  lemma BeBytesMod(v: int, w: int, n: nat)
    requires v % Pow256(n) == w % Pow256(n)
    ensures BeBytes(v, n) == BeBytes(w, n)
  {
    BeRoundTrip(v, n);
    BeRoundTrip(w, n);
    BeBytesOfValue(BeBytes(v, n));
    BeBytesOfValue(BeBytes(w, n));
  }

  /** The three bytes `(v >> 16) & 0xFF`, `(v >> 8) & 0xFF`, `v & 0xFF`. */
  lemma Be3Bytes(v: int)
    ensures BeBytes(v, 3) == [(v / 0x1_0000) % 256, (v / 0x100) % 256, v % 256]
  {
    Pow256Values();
    BeBytesAt(v, 3, 0);
    BeBytesAt(v, 3, 1);
    BeBytesAt(v, 3, 2);
  }

  /** The four bytes `(v >> 24) & 0xFF` down to `v & 0xFF`. */
  lemma Be4Bytes(v: int)
    ensures BeBytes(v, 4) == [(v / 0x100_0000) % 256, (v / 0x1_0000) % 256, (v / 0x100) % 256, v % 256]
  {
    Pow256Values();
    BeBytesAt(v, 4, 0);
    BeBytesAt(v, 4, 1);
    BeBytesAt(v, 4, 2);
    BeBytesAt(v, 4, 3);
  }

  /** The eight bytes `(v >> 56) & 0xFF` down to `v & 0xFF`. */
  lemma Be8Bytes(v: int)
    ensures BeBytes(v, 8) == [
      (v / 0x100_0000_0000_0000) % 256, (v / 0x1_0000_0000_0000) % 256,
      (v / 0x100_0000_0000) % 256, (v / 0x1_0000_0000) % 256,
      (v / 0x100_0000) % 256, (v / 0x1_0000) % 256, (v / 0x100) % 256, v % 256]
  {
    Pow256Values();
    assert Pow256(5) == 0x100_0000_0000 && Pow256(6) == 0x1_0000_0000_0000 && Pow256(7) == 0x100_0000_0000_0000;
    BeBytesAt(v, 8, 0);
    BeBytesAt(v, 8, 1);
    BeBytesAt(v, 8, 2);
    BeBytesAt(v, 8, 3);
    BeBytesAt(v, 8, 4);
    BeBytesAt(v, 8, 5);
    BeBytesAt(v, 8, 6);
    BeBytesAt(v, 8, 7);
  }

  /** A leading zero byte does not change a big-endian value. */
  lemma {:induction false} BeValueLeadingZero(s: seq<byte>)
    ensures BeValue([0] + s) == BeValue(s)
  {
    if s != [] {
      assert ([0] + s)[..|[0] + s| - 1] == [0] + s[..|s| - 1];
      BeValueLeadingZero(s[..|s| - 1]);
    }
  }

  /** Extending a big-endian field by one byte: the old value shifted left by 8, plus the byte. */
  lemma BeValueSnoc(s: seq<byte>, a: nat, n: nat)
    requires a + n < |s|
    ensures BeValue(s[a..a + n + 1]) == BeValue(s[a..a + n]) * 256 + s[a + n]
  {
    assert s[a..a + n + 1][..n] == s[a..a + n];
  }

  function U16Be(s: seq<byte>, i: nat): (r: u16)
    requires i + 2 <= |s|
    ensures r == BeValue(s[i..i + 2])
  {
    var t := s[i..i + 2];
    assert t[..1][..0] == [];
    assert BeValue(t[..1]) == t[0];
    (s[i] as int) * 256 + (s[i + 1] as int)
  }

  function U32Be(s: seq<byte>, i: nat): (r: u32)
    requires i + 4 <= |s|
    ensures r == BeValue(s[i..i + 4])
  {
    BeValueBound(s[i..i + 4]);
    Pow256Values();
    BeValue(s[i..i + 4])
  }

  function U32Le(s: seq<byte>, i: nat): (r: u32)
    requires i + 4 <= |s|
    ensures r == LeValue(s[i..i + 4])
  {
    LeValueBound(s[i..i + 4]);
    Pow256Values();
    LeValue(s[i..i + 4])
  }

  function U64Be(s: seq<byte>, i: nat): (r: u64)
    requires i + 8 <= |s|
    ensures r == BeValue(s[i..i + 8])
  {
    BeValueBound(s[i..i + 8]);
    Pow256Values();
    BeValue(s[i..i + 8])
  }

  /** Rust `x as u8`: keep the low 8 bits. */
  function AsU8(x: int): u8 { x % U8_LIMIT }

  /** Rust `x as u64` and wrapping u64 arithmetic: keep the low 64 bits. */
  function AsU64(x: int): u64 { x % U64_LIMIT }

  /** Rust `x as u32`: keep the low 32 bits (two's complement for negative x). */
  function AsU32(x: int): u32 { x % U32_LIMIT }

  /** Rust `x as i32` and wrapping i32 arithmetic: the low 32 bits read as signed. */
  function AsI32(x: int): (r: i32)
    ensures (r - x) % U32_LIMIT == 0
  {
    var m := x % U32_LIMIT;
    if m < 0x8000_0000 then m else m - U32_LIMIT
  }

  /** A value already in the i32 range reads back unchanged. */
  lemma AsI32InRange(x: int)
    requires -0x8000_0000 <= x < 0x8000_0000
    ensures AsI32(x) == x
  {
    if x < 0 {
      assert x % U32_LIMIT == x + U32_LIMIT;
    }
  }
}

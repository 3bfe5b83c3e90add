// Sequence and string operations with the meaning Rust's `str` and slice methods
// give them: find (first match), rposition (last match), replace (left to right,
// non-overlapping), split, trim (Unicode White_Space) and unsigned parsing.

module Strings {
  import opened Wrappers

  predicate MatchAt<T(==)>(s: seq<T>, p: seq<T>, i: nat)
  {
    i + |p| <= |s| && s[i..i + |p|] == p
  }

  /** The first index at or after k where p occurs in s. */
  function FindFrom<T(==)>(s: seq<T>, p: seq<T>, k: nat): (r: Option<nat>)
    ensures r.Some? ==> k <= r.value && MatchAt(s, p, r.value)
    ensures r.Some? ==> forall j :: k <= j < r.value ==> !MatchAt(s, p, j)
    ensures r.None? ==> forall j :: k <= j ==> !MatchAt(s, p, j)
    decreases |s| - k
  {
    if k + |p| > |s| then None
    else if s[k..k + |p|] == p then Some(k)
    else FindFrom(s, p, k + 1)
  }

  /** Rust `find` / `windows(n).position(..)`: the first occurrence of p. */
  function Find<T(==)>(s: seq<T>, p: seq<T>): Option<nat>
  {
    FindFrom(s, p, 0)
  }

  predicate Contains<T(==)>(s: seq<T>, p: seq<T>)
  {
    Find(s, p).Some?
  }

  lemma ContainsIff<T>(s: seq<T>, p: seq<T>)
    ensures Contains(s, p) <==> exists i :: MatchAt(s, p, i)
  {
    if !Contains(s, p) {
      assert forall j :: 0 <= j ==> !MatchAt(s, p, j);
    }
  }

  /** A pattern whose first element never occurs does not occur. */
  lemma AbsentHead<T>(s: seq<T>, p: seq<T>)
    requires |p| > 0 && forall i :: 0 <= i < |s| ==> s[i] != p[0]
    ensures !Contains(s, p)
  {
    forall j: nat | j + |p| <= |s|
      ensures !MatchAt(s, p, j)
    {
      assert s[j..j + |p|][0] == s[j];
    }
    ContainsIff(s, p);
  }

  lemma ContainsAt<T>(s: seq<T>, p: seq<T>, i: nat)
    requires MatchAt(s, p, i)
    ensures Contains(s, p) && Find(s, p).value <= i
  {
  }

  /** A match at i with none between k and i is what the search from k finds. */
  lemma FindFromFirst<T>(s: seq<T>, p: seq<T>, k: nat, i: nat)
    requires k <= i && MatchAt(s, p, i)
    requires forall j :: k <= j < i ==> !MatchAt(s, p, j)
    ensures FindFrom(s, p, k) == Some(i)
  {
  }

  /** In x + p + y, p matches right after x, and y follows it. */
  lemma MatchAfter<T>(x: seq<T>, p: seq<T>, y: seq<T>)
    ensures MatchAt(x + p + y, p, |x|)
    ensures (x + p + y)[|x| + |p|..] == y
  {
    assert (x + p + y)[|x|..|x| + |p|] == p;
  }

  /** A slice is the concatenation of its three consecutive parts. */
  lemma SliceThree<T>(s: seq<T>, a: nat, b: nat, c: nat, d: nat)
    requires a <= b <= c <= d <= |s|
    ensures s[a..d] == s[a..b] + s[b..c] + s[c..d]
  {
    assert s[a..d] == s[a..b] + s[b..d];
    assert s[b..d] == s[b..c] + s[c..d];
  }

  /** The slice from a match of p at i through the end of a match of q at j starts with p and ends with q. */
  lemma SliceBetween<T>(s: seq<T>, p: seq<T>, q: seq<T>, i: nat, j: nat)
    requires MatchAt(s, p, i) && MatchAt(s, q, j) && i <= j && |p| <= |q|
    ensures StartsWith(s[i..j + |q|], p)
    ensures EndsWith(s[i..j + |q|], q)
  {
    var t := s[i..j + |q|];
    assert t[..|p|] == s[i..i + |p|];
    assert t[|t| - |q|..] == s[j..j + |q|];
  }

  /** Rust `iter().rposition(|x| x == c)`: the last index holding c. */
  function FindLast<T(==)>(s: seq<T>, c: T): (r: Option<nat>)
    ensures r.Some? ==> r.value < |s| && s[r.value] == c && forall j :: r.value < j < |s| ==> s[j] != c
    ensures r.None? ==> forall j :: 0 <= j < |s| ==> s[j] != c
  {
    if s == [] then None
    else if s[|s| - 1] == c then Some(|s| - 1)
    else FindLast(s[..|s| - 1], c)
  }

  predicate StartsWith<T(==)>(s: seq<T>, p: seq<T>)
  {
    |p| <= |s| && s[..|p|] == p
  }

  predicate EndsWith<T(==)>(s: seq<T>, p: seq<T>)
  {
    |p| <= |s| && s[|s| - |p|..] == p
  }

  /** Rust `replace(p, r)`: every non-overlapping occurrence of p, scanned left to right, becomes r. */
  function ReplaceAll<T(==)>(s: seq<T>, p: seq<T>, r: seq<T>): seq<T>
    requires |p| > 0
    decreases |s|
  {
    if |s| < |p| then s
    else if s[..|p|] == p then r + ReplaceAll(s[|p|..], p, r)
    else [s[0]] + ReplaceAll(s[1..], p, r)
  }

  /** The number of occurrences that ReplaceAll rewrites (Rust `matches(p).count()`). */
  function CountMatches<T(==)>(s: seq<T>, p: seq<T>): nat
    requires |p| > 0
    decreases |s|
  {
    if |s| < |p| then 0
    else if s[..|p|] == p then 1 + CountMatches(s[|p|..], p)
    else CountMatches(s[1..], p)
  }

  /** A replacement shorter than the pattern never lengthens, and shortens whenever p occurs. */
  lemma {:induction false} ReplaceAllShorter<T>(s: seq<T>, p: seq<T>, r: seq<T>)
    requires |p| > 0 && |r| < |p|
    ensures |ReplaceAll(s, p, r)| <= |s|
    ensures Contains(s, p) ==> |ReplaceAll(s, p, r)| < |s|
    decreases |s|
  {
    if |s| < |p| {
      assert forall j :: 0 <= j ==> !MatchAt(s, p, j);
    } else if s[..|p|] == p {
      ReplaceAllShorter(s[|p|..], p, r);
    } else {
      assert !MatchAt(s, p, 0);
      ShiftMatch(s, p);
      ReplaceAllShorter(s[1..], p, r);
    }
  }

  lemma {:induction false} CountMatchesZero<T>(s: seq<T>, p: seq<T>)
    requires |p| > 0
    ensures CountMatches(s, p) == 0 <==> !Contains(s, p)
    decreases |s|
  {
    if |s| < |p| {
      assert forall j :: 0 <= j ==> !MatchAt(s, p, j);
    } else if s[..|p|] == p {
      assert MatchAt(s, p, 0);
    } else {
      CountMatchesZero(s[1..], p);
      ShiftMatch(s, p);
    }
  }

  /** Away from index 0, the matches of s are those of s[1..] shifted by one. */
  lemma ShiftMatch<T>(s: seq<T>, p: seq<T>)
    requires |s| >= 1 && !MatchAt(s, p, 0)
    ensures Contains(s, p) <==> Contains(s[1..], p)
  {
    if Contains(s, p) {
      var i := Find(s, p).value;
      assert i >= 1;
      assert s[1..][i - 1..i - 1 + |p|] == s[i..i + |p|];
      assert MatchAt(s[1..], p, i - 1);
      ContainsAt(s[1..], p, i - 1);
    }
    if Contains(s[1..], p) {
      var i := Find(s[1..], p).value;
      assert s[1..][i..i + |p|] == s[i + 1..i + 1 + |p|];
      assert MatchAt(s, p, i + 1);
      ContainsAt(s, p, i + 1);
    }
  }

  lemma {:induction false} ReplaceAllAbsent<T>(s: seq<T>, p: seq<T>, r: seq<T>)
    requires |p| > 0 && !Contains(s, p)
    ensures ReplaceAll(s, p, r) == s
    decreases |s|
  {
    if |s| >= |p| {
      assert !MatchAt(s, p, 0);
      ShiftMatch(s, p);
      ReplaceAllAbsent(s[1..], p, r);
    }
  }

  /** Replacing with text free of c, in text free of c, leaves text free of c. */
  lemma {:induction false} ReplaceAllAvoids<T>(s: seq<T>, p: seq<T>, r: seq<T>, c: T)
    requires |p| > 0
    requires forall i :: 0 <= i < |s| ==> s[i] != c
    requires forall i :: 0 <= i < |r| ==> r[i] != c
    ensures forall i :: 0 <= i < |ReplaceAll(s, p, r)| ==> ReplaceAll(s, p, r)[i] != c
    decreases |s|
  {
    if |s| >= |p| {
      if s[..|p|] == p {
        ReplaceAllAvoids(s[|p|..], p, r, c);
      } else {
        ReplaceAllAvoids(s[1..], p, r, c);
      }
    }
  }

  /** A one-element pattern cannot straddle a split, so replacing it works piece by piece. */
  lemma {:induction false} ReplaceAllConcat<T>(a: seq<T>, b: seq<T>, c: T, r: seq<T>)
    ensures ReplaceAll(a + b, [c], r) == ReplaceAll(a, [c], r) + ReplaceAll(b, [c], r)
    decreases |a|
  {
    if a == [] {
      assert a + b == b;
    } else {
      assert (a + b)[..1] == a[..1] && (a + b)[1..] == a[1..] + b;
      ReplaceAllConcat(a[1..], b, c, r);
      if a[..1] == [c] {
        assert r + (ReplaceAll(a[1..], [c], r) + ReplaceAll(b, [c], r))
          == (r + ReplaceAll(a[1..], [c], r)) + ReplaceAll(b, [c], r);
      } else {
        assert [a[0]] + (ReplaceAll(a[1..], [c], r) + ReplaceAll(b, [c], r))
          == ([a[0]] + ReplaceAll(a[1..], [c], r)) + ReplaceAll(b, [c], r);
      }
    }
  }

  /** Rust `replace(c, "")` for a single character: every c is dropped. */
  function RemoveAll<T(==)>(s: seq<T>, c: T): (r: seq<T>)
    ensures forall i :: 0 <= i < |r| ==> r[i] != c
    ensures |r| <= |s|
    ensures (forall i :: 0 <= i < |s| ==> s[i] != c) ==> r == s
  {
    if s == [] then []
    else if s[0] == c then RemoveAll(s[1..], c)
    else [s[0]] + RemoveAll(s[1..], c)
  }

  /** Rust `split(c)`: the pieces between occurrences of c, empty pieces included. */
  function Split<T(==)>(s: seq<T>, c: T): (r: seq<seq<T>>)
    ensures |r| >= 1
    decreases |s|
  {
    match FindFrom(s, [c], 0)
    case None => [s]
    case Some(i) => [s[..i]] + Split(s[i + 1..], c)
  }

  /** The Unicode White_Space property, which Rust's `trim` family strips. */
  predicate IsWhitespace(c: char)
  {
    ('\t' <= c <= '\r') || c == ' ' || c == '\U{0085}' || c == '\U{00A0}' || c == '\U{1680}'
    || ('\U{2000}' <= c <= '\U{200A}') || c == '\U{2028}' || c == '\U{2029}' || c == '\U{202F}'
    || c == '\U{205F}' || c == '\U{3000}'
  }

  function TrimStart(s: string): (r: string)
    ensures |r| <= |s| && r == s[|s| - |r|..]
    ensures r == [] || !IsWhitespace(r[0])
    ensures forall i :: 0 <= i < |s| - |r| ==> IsWhitespace(s[i])
  {
    if s != [] && IsWhitespace(s[0]) then TrimStart(s[1..]) else s
  }

  /** Text that does not start with White_Space is left alone by TrimStart. */
  lemma TrimStartKeeps(s: string)
    requires s == [] || !IsWhitespace(s[0])
    ensures TrimStart(s) == s
  {
  }

  function TrimEnd(s: string): (r: string)
    ensures |r| <= |s| && r == s[..|r|]
    ensures r == [] || !IsWhitespace(r[|r| - 1])
    ensures forall i :: |r| <= i < |s| ==> IsWhitespace(s[i])
  {
    if s != [] && IsWhitespace(s[|s| - 1]) then TrimEnd(s[..|s| - 1]) else s
  }

  /** Rust `trim`: leading and trailing White_Space removed. */
  function Trim(s: string): string
  {
    TrimEnd(TrimStart(s))
  }

  /** Rust `trim_start_matches(c)` for one character. */
  function TrimStartChar<T(==)>(s: seq<T>, c: T): (r: seq<T>)
    ensures |r| <= |s| && r == s[|s| - |r|..]
    ensures r == [] || r[0] != c
    ensures forall i :: 0 <= i < |s| - |r| ==> s[i] == c
  {
    if s != [] && s[0] == c then TrimStartChar(s[1..], c) else s
  }

  /** Rust `trim_end_matches(c)` for one character. */
  function TrimEndChar<T(==)>(s: seq<T>, c: T): (r: seq<T>)
    ensures |r| <= |s| && r == s[..|r|]
    ensures r == [] || r[|r| - 1] != c
    ensures forall i :: |r| <= i < |s| ==> s[i] == c
  {
    if s != [] && s[|s| - 1] == c then TrimEndChar(s[..|s| - 1], c) else s
  }

  predicate IsAsciiDigit(c: char) { '0' <= c <= '9' }

  predicate IsAsciiAlphanumeric(c: char)
  {
    IsAsciiDigit(c) || ('a' <= c <= 'z') || ('A' <= c <= 'Z')
  }

  predicate AllDigits(s: string)
  {
    forall i :: 0 <= i < |s| ==> IsAsciiDigit(s[i])
  }

  /** The decimal value of a string of ASCII digits. */
  function DigitsValue(s: string): nat
    requires AllDigits(s)
  {
    if s == [] then 0 else DigitsValue(s[..|s| - 1]) * 10 + (s[|s| - 1] as int - '0' as int)
  }

  /** Where the digits of a numeral start: after an optional leading '+'. */
  function NumeralStart(s: string): nat
  {
    if |s| > 0 && s[0] == '+' then 1 else 0
  }

  /**
   * Rust `str::parse` for an unsigned integer type whose values are below limit:
   * an optional '+', then at least one ASCII digit, and a value that fits.
   */
  function ParseUnsigned(s: string, limit: nat): (r: Option<nat>)
    ensures r.Some? ==> r.value < limit
  {
    var k := NumeralStart(s);
    if |s| > k && AllDigits(s[k..]) && DigitsValue(s[k..]) < limit then Some(DigitsValue(s[k..])) else None
  }

  /** Decimal rendering of a natural number, as `format!("{}", n)` prints it. */
  function NatToDecimal(n: nat): (r: string)
    ensures |r| >= 1 && AllDigits(r)
  {
    var d := ['0' + (n % 10) as char];
    if n < 10 then d else NatToDecimal(n / 10) + d
  }

  /** Reading back the decimal rendering gives the number. */
  lemma {:induction false} NatToDecimalValue(n: nat)
    ensures DigitsValue(NatToDecimal(n)) == n
  {
    var r := NatToDecimal(n);
    if n >= 10 {
      NatToDecimalValue(n / 10);
      assert r[..|r| - 1] == NatToDecimal(n / 10);
    }
  }

  /** Signed decimal rendering of an integer. */
  function IntToDecimal(x: int): string
  {
    if x < 0 then "-" + NatToDecimal(-x) else NatToDecimal(x)
  }

  /** An upper-case hexadecimal digit. */
  function HexDigit(d: nat): char
    requires d < 16
  {
    if d < 10 then ('0' as int + d) as char else ('A' as int + d - 10) as char
  }

  function HexDigitValue(c: char): Option<nat>
  {
    if '0' <= c <= '9' then Some(c as int - '0' as int)
    else if 'A' <= c <= 'F' then Some(c as int - 'A' as int + 10)
    else None
  }

  /** `format!("{:02X}", b)` for a byte. */
  function Hex2(n: nat): (r: string)
    requires n < 256
    ensures |r| == 2
  {
    [HexDigit(n / 16), HexDigit(n % 16)]
  }

  /** The value of two hexadecimal digits. */
  function Hex2Value(s: string): Option<nat>
  {
    if |s| != 2 then None
    else match (HexDigitValue(s[0]), HexDigitValue(s[1]))
      case (Some(h), Some(l)) => Some(h * 16 + l)
      case _ => None
  }

  /** Two-digit hexadecimal rendering reads back as the byte. */
  lemma Hex2RoundTrip(n: nat)
    requires n < 256
    ensures Hex2Value(Hex2(n)) == Some(n)
  {
    assert HexDigitValue(HexDigit(n / 16)) == Some(n / 16);
    assert HexDigitValue(HexDigit(n % 16)) == Some(n % 16);
  }
}

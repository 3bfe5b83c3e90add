// The string helper of `src/utils.rs`: `truncate_string`, which cuts a string
// to a byte budget and marks the cut with "...".

module Utils {
  import opened Wrappers
  import opened Utf8

  const ELLIPSIS: string := "..."

  /** The encoding of a concatenation is the concatenation of the encodings. */
  lemma {:induction false} EncodeConcat(a: string, b: string)
    ensures Encode(a + b) == Encode(a) + Encode(b)
  {
    if a == [] {
      assert a + b == b;
    } else {
      assert (a + b)[0] == a[0] && (a + b)[1..] == a[1..] + b;
      EncodeConcat(a[1..], b);
    }
  }

  /** A longer prefix of a string takes at least as many bytes. */
  lemma PrefixLenMonotone(s: string, i: nat, j: nat)
    requires i <= j <= |s|
    ensures Utf8Len(s[..i]) <= Utf8Len(s[..j])
    ensures j == i + 1 ==> Utf8Len(s[..j]) <= Utf8Len(s[..i]) + 4
  {
    assert s[..j] == s[..i] + s[i..j];
    EncodeConcat(s[..i], s[i..j]);
    if j == i + 1 {
      assert s[i..j] == [s[i]];
      assert Encode([s[i]]) == EncodeChar(s[i]) + Encode([]);
    }
  }

  /** The number of leading characters of `s` whose encoding fits in `n` bytes. */
  function CharsWithin(s: string, n: nat): (k: nat)
    ensures k <= |s| && Utf8Len(s[..k]) <= n
    ensures k < |s| ==> Utf8Len(s[..k + 1]) > n
  {
    if s == [] || |EncodeChar(s[0])| > n then
      assert Encode(s[..0]) == [];
      assert s != [] ==> s[..1] == [s[0]] + s[1..][..0];
      0
    else
      var k' := CharsWithin(s[1..], n - |EncodeChar(s[0])|);
      assert s[..k' + 1] == [s[0]] + s[1..][..k'];
      assert k' < |s[1..]| ==> s[..k' + 2] == [s[0]] + s[1..][..k' + 1];
      k' + 1
  }

  /**
   * `truncate_string` as written: a string within `maxLen` bytes is returned
   * unchanged, a budget of at most 3 gives "...", and otherwise the string is
   * sliced at byte `maxLen - 3`, which panics unless that byte starts a
   * character (or is the end).
   */
  function TruncateStringAsWritten(s: string, maxLen: nat): (r: Outcome<string>)
    ensures Utf8Len(s) <= maxLen ==> r == Returns(s)
    ensures Utf8Len(s) > maxLen && maxLen <= 3 ==> r == Returns(ELLIPSIS)
    ensures r.Returns? && Utf8Len(s) > maxLen > 3 ==>
      exists k :: 0 <= k <= |s| && Utf8Len(s[..k]) == maxLen - 3 && r.value == s[..k] + ELLIPSIS
  {
    if Utf8Len(s) <= maxLen then Returns(s)
    else if maxLen <= 3 then Returns(ELLIPSIS)
    else
      var k := CharsWithin(s, maxLen - 3);
      if Utf8Len(s[..k]) == maxLen - 3 then Returns(s[..k] + ELLIPSIS) else Panics
  }

  /** The as-written slice panics exactly when byte `maxLen - 3` falls inside a character. */
  lemma PanicsOffBoundary(s: string, maxLen: nat)
    requires Utf8Len(s) > maxLen > 3
    ensures TruncateStringAsWritten(s, maxLen).Panics? <==>
      forall k :: 0 <= k <= |s| ==> Utf8Len(s[..k]) != maxLen - 3
  {
    var n := maxLen - 3;
    var c := CharsWithin(s, n);
    if TruncateStringAsWritten(s, maxLen).Panics? {
      forall k | 0 <= k <= |s|
        ensures Utf8Len(s[..k]) != n
      {
        if k <= c {
          PrefixLenMonotone(s, k, c);
        } else {
          PrefixLenMonotone(s, c + 1, k);
        }
      }
    }
  }

  /** "ééé" takes 6 bytes; with a budget of 4 the slice at byte 1 cuts the first 'é' in two. */
  lemma AccentedTextPanics()
    ensures TruncateStringAsWritten("ééé", 4) == Panics
  {
    var s := "ééé";
    assert EncodeChar(s[0]) == [0xC3, 0xA9];
    assert Encode(s) == [0xC3, 0xA9] + ([0xC3, 0xA9] + ([0xC3, 0xA9] + Encode([])));
    assert CharsWithin(s, 1) == 0;
    assert s[..0] == [];
  }

  /**
   * `truncate_string` as intended: the cut falls at the last character
   * boundary within `maxLen - 3` bytes, so the result is a prefix of the
   * string followed by "...", never longer than the budget (or 3).
   */
  function TruncateString(s: string, maxLen: nat): (r: string)
    ensures Utf8Len(s) <= maxLen ==> r == s
    ensures Utf8Len(s) > maxLen && maxLen <= 3 ==> r == ELLIPSIS
    ensures Utf8Len(r) <= if maxLen < 3 then 3 else maxLen
    ensures Utf8Len(s) > maxLen > 3 ==> exists k :: 0 <= k <= |s| && r == s[..k] + ELLIPSIS
  {
    if Utf8Len(s) <= maxLen then s
    else if maxLen <= 3 then
      assert Encode(ELLIPSIS) == ['.' as int] + (['.' as int] + (['.' as int] + Encode([])));
      ELLIPSIS
    else
      var k := CharsWithin(s, maxLen - 3);
      EncodeConcat(s[..k], ELLIPSIS);
      assert Encode(ELLIPSIS) == ['.' as int] + (['.' as int] + (['.' as int] + Encode([])));
      s[..k] + ELLIPSIS
  }

  /**
   * The kept prefix is the longest one that fits: it leaves at most 3 bytes
   * of the budget unused, since no character takes more than 4 bytes.
   */
  lemma TruncationKeepsLongestPrefix(s: string, maxLen: nat)
    requires Utf8Len(s) > maxLen > 3
    ensures var k := CharsWithin(s, maxLen - 3);
      && TruncateString(s, maxLen) == s[..k] + ELLIPSIS
      && maxLen - 3 - 3 <= Utf8Len(s[..k]) <= maxLen - 3
  {
    var k := CharsWithin(s, maxLen - 3);
    assert s[..|s|] == s;
    PrefixLenMonotone(s, k, k + 1);
  }

  /** Wherever the slice does not panic, the written helper and the intended one agree. */
  lemma TruncationsAgree(s: string, maxLen: nat)
    ensures TruncateStringAsWritten(s, maxLen).Returns? ==>
      TruncateStringAsWritten(s, maxLen).value == TruncateString(s, maxLen)
  {
  }

  /** On ASCII text every byte starts a character, so the slice as written never panics. */
  lemma AsciiNeverPanics(s: string, maxLen: nat)
    requires forall i :: 0 <= i < |s| ==> s[i] as int < 0x80
    ensures TruncateStringAsWritten(s, maxLen).Returns?
  {
    if Utf8Len(s) > maxLen > 3 {
      var k := maxLen - 3;
      AsciiLen(s);
      AsciiLen(s[..k]);
      PanicsOffBoundary(s, maxLen);
    }
  }

  /** Helper: an ASCII string takes one byte per character. */
  lemma {:induction false} AsciiLen(s: string)
    requires forall i :: 0 <= i < |s| ==> s[i] as int < 0x80
    ensures Utf8Len(s) == |s|
  {
    if s != [] {
      AsciiLen(s[1..]);
    }
  }
}

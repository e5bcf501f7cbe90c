/** Stable project identifiers. A project's GUID is the MD5 digest of its name
    read as a `System.Guid` and printed upper-case. The digest (and the text
    encoding before it) is a parameter; the rendering of its 16 bytes is modelled
    exactly. */
module Guids {
  import opened Wrappers
  import Text

  newtype byte = x: int | 0 <= x < 256

  /** A 16-byte MD5 digest. */
  type Digest = d: seq<byte> | |d| == 16 witness seq(16, _ => 0)

  /** The lower-case hexadecimal digit `Guid.ToString` writes for `n`. */
  function LowerHexDigit(n: int): char
    requires 0 <= n < 16
  {
    if n < 10 then ('0' as int + n) as char else ('a' as int + n - 10) as char
  }

  /** Two lower-case digits per byte, high nibble first. */
  function Hex(bs: seq<byte>): (s: string)
    ensures |s| == 2 * |bs|
    decreases |bs|
  {
    if bs == [] then ""
    else [LowerHexDigit(bs[0] as int / 16), LowerHexDigit(bs[0] as int % 16)] + Hex(bs[1..])
  }

  /** The digits of byte `j` stand at positions `2j` and `2j + 1`. */
  lemma {:induction false} HexDigits(bs: seq<byte>)
    ensures forall j :: 0 <= j < |bs| ==>
      Hex(bs)[2 * j] == LowerHexDigit(bs[j] as int / 16) && Hex(bs)[2 * j + 1] == LowerHexDigit(bs[j] as int % 16)
    decreases |bs|
  {
    if bs != [] {
      var rest := Hex(bs[1..]);
      HexDigits(bs[1..]);
      forall j | 1 <= j < |bs|
        ensures Hex(bs)[2 * j] == rest[2 * (j - 1)] && Hex(bs)[2 * j + 1] == rest[2 * (j - 1) + 1]
      {
      }
    }
  }

  /** The bytes of `bs` last to first. */
  function Reversed(bs: seq<byte>): (r: seq<byte>)
    ensures |r| == |bs|
  {
    seq(|bs|, j requires 0 <= j < |bs| => bs[|bs| - 1 - j])
  }

  /** `new Guid(d).ToString()`: the "D" format `xxxxxxxx-xxxx-xxxx-xxxx-xxxxxxxxxxxx`.
      The constructor reads bytes 0-3, 4-5 and 6-7 as little-endian integers, so
      those groups print their bytes in reverse; bytes 8-15 print in order. */
  function FormatGuid(d: Digest): string {
    Hex(Reversed(d[0..4])) + "-" + Hex(Reversed(d[4..6])) + "-" + Hex(Reversed(d[6..8])) + "-"
      + Hex(d[8..10]) + "-" + Hex(d[10..16])
  }

  /** `GenerateGuid(name)`: the GUID text for the digest of `name`, upper-cased.
      It depends on nothing but the name, so every document that mentions a
      project agrees on its GUID. */
  function GenerateGuid(md5: string -> Digest, name: string): (g: string)
    ensures IsGuidText(g)
  {
    UpperGuidShape(md5(name));
    Text.ToUpper(FormatGuid(md5(name)))
  }

  predicate IsLowerHexDigit(c: char) {
    '0' <= c <= '9' || 'a' <= c <= 'f'
  }

  predicate IsUpperHexDigit(c: char) {
    '0' <= c <= '9' || 'A' <= c <= 'F'
  }

  predicate IsHyphenPosition(i: int) {
    i == 8 || i == 13 || i == 18 || i == 23
  }

  /** 36 characters, hyphens at 8, 13, 18 and 23, upper-case hexadecimal digits
      everywhere else. */
  predicate IsGuidText(g: string) {
    && |g| == 36
    && forall i :: 0 <= i < 36 ==> if IsHyphenPosition(i) then g[i] == '-' else IsUpperHexDigit(g[i])
  }

  /** Where the first of the two digits of byte `k` of the digest stands in the
      GUID text. */
  function PairPosition(k: int): (p: int)
    requires 0 <= k < 16
  {
    if k < 4 then 2 * (3 - k)
    else if k < 6 then 9 + 2 * (5 - k)
    else if k < 8 then 14 + 2 * (7 - k)
    else if k < 10 then 19 + 2 * (k - 8)
    else 24 + 2 * (k - 10)
  }

  function HexValue(c: char): int
    requires IsUpperHexDigit(c)
  {
    if c <= '9' then c as int - '0' as int else c as int - 'A' as int + 10
  }

  /** Reads GUID text back into the digest it was printed from, or `None` when the
      text is not GUID-shaped. */
  function ParseGuid(g: string): Option<Digest> {
    if !IsGuidText(g) then None
    else
      var d := seq(16, k requires 0 <= k < 16 =>
        var p := PairPosition(k);
        (16 * HexValue(g[p]) + HexValue(g[p + 1])) as byte);
      Some(d)
  }

  /** The digits of one hexadecimal group of the GUID text, standing at `off`. */
  lemma GroupDigits(s: string, off: nat, bs: seq<byte>)
    requires off + 2 * |bs| <= |s| && s[off..off + 2 * |bs|] == Hex(bs)
    ensures forall j :: 0 <= j < |bs| ==>
      s[off + 2 * j] == LowerHexDigit(bs[j] as int / 16)
      && s[off + 2 * j + 1] == LowerHexDigit(bs[j] as int % 16)
  {
    HexDigits(bs);
    forall j | 0 <= j < |bs|
      ensures s[off + 2 * j] == LowerHexDigit(bs[j] as int / 16)
      ensures s[off + 2 * j + 1] == LowerHexDigit(bs[j] as int % 16)
    {
      assert s[off + 2 * j] == Hex(bs)[2 * j];
      assert s[off + 2 * j + 1] == Hex(bs)[2 * j + 1];
    }
  }

  /** Where the five groups and the four hyphens of the "D" format stand. */
  lemma HyphenatedGroups(h1: string, h2: string, h3: string, h4: string, h5: string)
    requires |h1| == 8 && |h2| == 4 && |h3| == 4 && |h4| == 4 && |h5| == 12
    ensures
      var s := h1 + "-" + h2 + "-" + h3 + "-" + h4 + "-" + h5;
      && |s| == 36
      && s[0..8] == h1 && s[9..13] == h2 && s[14..18] == h3 && s[19..23] == h4 && s[24..36] == h5
      && s[8] == '-' && s[13] == '-' && s[18] == '-' && s[23] == '-'
  {
  }

  /** A group printed in reverse: byte `k` of the digest stands at pair `hi - 1 - k`. */
  lemma ReversedGroup(s: string, off: nat, d: Digest, lo: nat, hi: nat)
    requires lo <= hi <= 16
    requires off + 2 * (hi - lo) <= |s| && s[off..off + 2 * (hi - lo)] == Hex(Reversed(d[lo..hi]))
    ensures forall k :: lo <= k < hi ==>
      s[off + 2 * (hi - 1 - k)] == LowerHexDigit(d[k] as int / 16)
      && s[off + 2 * (hi - 1 - k) + 1] == LowerHexDigit(d[k] as int % 16)
  {
    var g := Reversed(d[lo..hi]);
    GroupDigits(s, off, g);
    forall k | lo <= k < hi
      ensures s[off + 2 * (hi - 1 - k)] == LowerHexDigit(d[k] as int / 16)
      ensures s[off + 2 * (hi - 1 - k) + 1] == LowerHexDigit(d[k] as int % 16)
    {
      assert g[hi - 1 - k] == d[k];
    }
  }

  /** A group printed in order: byte `k` of the digest stands at pair `k - lo`. */
  lemma InOrderGroup(s: string, off: nat, d: Digest, lo: nat, hi: nat)
    requires lo <= hi <= 16
    requires off + 2 * (hi - lo) <= |s| && s[off..off + 2 * (hi - lo)] == Hex(d[lo..hi])
    ensures forall k :: lo <= k < hi ==>
      s[off + 2 * (k - lo)] == LowerHexDigit(d[k] as int / 16)
      && s[off + 2 * (k - lo) + 1] == LowerHexDigit(d[k] as int % 16)
  {
    var g := d[lo..hi];
    GroupDigits(s, off, g);
    forall k | lo <= k < hi
      ensures s[off + 2 * (k - lo)] == LowerHexDigit(d[k] as int / 16)
      ensures s[off + 2 * (k - lo) + 1] == LowerHexDigit(d[k] as int % 16)
    {
      assert g[k - lo] == d[k];
    }
  }

  /** The three little-endian groups. */
  lemma LittleEndianBytePosition(d: Digest, k: nat)
    requires k < 8
    ensures FormatGuid(d)[PairPosition(k)] == LowerHexDigit(d[k] as int / 16)
    ensures FormatGuid(d)[PairPosition(k) + 1] == LowerHexDigit(d[k] as int % 16)
  {
    var s := FormatGuid(d);
    HyphenatedGroups(Hex(Reversed(d[0..4])), Hex(Reversed(d[4..6])), Hex(Reversed(d[6..8])), Hex(d[8..10]), Hex(d[10..16]));
    if k < 4 {
      ReversedGroup(s, 0, d, 0, 4);
    } else if k < 6 {
      ReversedGroup(s, 9, d, 4, 6);
    } else {
      ReversedGroup(s, 14, d, 6, 8);
    }
  }

  /** The two groups printed byte by byte. */
  lemma InOrderBytePosition(d: Digest, k: nat)
    requires 8 <= k < 16
    ensures FormatGuid(d)[PairPosition(k)] == LowerHexDigit(d[k] as int / 16)
    ensures FormatGuid(d)[PairPosition(k) + 1] == LowerHexDigit(d[k] as int % 16)
  {
    var s := FormatGuid(d);
    HyphenatedGroups(Hex(Reversed(d[0..4])), Hex(Reversed(d[4..6])), Hex(Reversed(d[6..8])), Hex(d[8..10]), Hex(d[10..16]));
    InOrderGroup(s, 19, d, 8, 10);
    InOrderGroup(s, 24, d, 10, 16);
  }

  /** Where every byte's digits and every hyphen stand in `FormatGuid(d)`. */
  lemma FormatGuidShape(d: Digest)
    ensures |FormatGuid(d)| == 36
    ensures forall k :: 0 <= k < 16 ==>
      FormatGuid(d)[PairPosition(k)] == LowerHexDigit(d[k] as int / 16)
      && FormatGuid(d)[PairPosition(k) + 1] == LowerHexDigit(d[k] as int % 16)
    ensures forall i :: 0 <= i < 36 && IsHyphenPosition(i) ==> FormatGuid(d)[i] == '-'
  {
    HyphenatedGroups(Hex(Reversed(d[0..4])), Hex(Reversed(d[4..6])), Hex(Reversed(d[6..8])), Hex(d[8..10]), Hex(d[10..16]));
    forall k | 0 <= k < 16
      ensures FormatGuid(d)[PairPosition(k)] == LowerHexDigit(d[k] as int / 16)
      ensures FormatGuid(d)[PairPosition(k) + 1] == LowerHexDigit(d[k] as int % 16)
    {
      if k < 8 {
        LittleEndianBytePosition(d, k);
      } else {
        InOrderBytePosition(d, k);
      }
    }
  }

  /** The byte whose digits stand at the non-hyphen position `i`. */
  function ByteAt(i: int): (k: int)
    requires 0 <= i < 36 && !IsHyphenPosition(i)
    ensures 0 <= k < 16 && (i == PairPosition(k) || i == PairPosition(k) + 1)
  {
    if i < 8 then 3 - i / 2
    else if i < 13 then 5 - (i - 9) / 2
    else if i < 18 then 7 - (i - 14) / 2
    else if i < 23 then 8 + (i - 19) / 2
    else 10 + (i - 24) / 2
  }

  /** Upper-casing the printed GUID gives GUID-shaped text. */
  lemma UpperGuidShape(d: Digest)
    ensures IsGuidText(Text.ToUpper(FormatGuid(d)))
  {
    var s := FormatGuid(d);
    FormatGuidShape(d);
    var u := Text.ToUpper(s);
    forall i | 0 <= i < 36 && !IsHyphenPosition(i)
      ensures IsUpperHexDigit(u[i])
    {
      var k := ByteAt(i);
      DigitRoundTrip(d[k] as int / 16);
      DigitRoundTrip(d[k] as int % 16);
    }
  }

  /** A digit survives upper-casing and reads back as its value. */
  lemma DigitRoundTrip(n: int)
    requires 0 <= n < 16
    ensures IsUpperHexDigit(Text.UpperChar(LowerHexDigit(n)))
    ensures HexValue(Text.UpperChar(LowerHexDigit(n))) == n
  {
  }

  /** Parsing a generated GUID recovers the digest it was printed from. */
  lemma {:induction false} ParseGenerated(md5: string -> Digest, name: string)
    ensures ParseGuid(GenerateGuid(md5, name)) == Some(md5(name))
  {
    var d := md5(name);
    var g := GenerateGuid(md5, name);
    FormatGuidShape(d);
    var r := ParseGuid(g);
    assert r.Some?;
    forall k | 0 <= k < 16
      ensures r.value[k] == d[k]
    {
      var p := PairPosition(k);
      DigitRoundTrip(d[k] as int / 16);
      DigitRoundTrip(d[k] as int % 16);
      assert g[p] == Text.UpperChar(LowerHexDigit(d[k] as int / 16));
      assert g[p + 1] == Text.UpperChar(LowerHexDigit(d[k] as int % 16));
    }
    assert r.value == d;
  }

  /** Two names get the same GUID exactly when their digests agree: the rendering
      loses nothing. */
  lemma SameGuidIffSameDigest(md5: string -> Digest, n1: string, n2: string)
    ensures GenerateGuid(md5, n1) == GenerateGuid(md5, n2) <==> md5(n1) == md5(n2)
  {
    ParseGenerated(md5, n1);
    ParseGenerated(md5, n2);
  }
}

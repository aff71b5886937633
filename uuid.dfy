/** The textual form of the 16-byte identifier of a `uuid` box: lower-case
    hexadecimal, two digits per byte, grouped 8-4-4-4-12 and joined by
    hyphens. */
module Uuid {
  import opened Bytes

  const HexDigits: string := "0123456789abcdef"

  function HexDigit(d: nat): char
    requires d < 16
  {
    HexDigits[d]
  }

  predicate IsLowerHex(c: char)
  {
    c in HexDigits
  }

  /** `Number.prototype.toString(16)` on a byte: lower-case hex without
      leading zeros. */
  function ToHex(b: byte): string
  {
    if b < 16 then [HexDigit(b as nat)] else [HexDigit(b as nat / 16), HexDigit(b as nat % 16)]
  }

  /** The two-digit form of a byte. */
  function Hex2(b: byte): string
  {
    [HexDigit(b as nat / 16), HexDigit(b as nat % 16)]
  }

  /** The hex digits of all bytes, in order. */
  function HexString(s: seq<byte>): string
  {
    if s == [] then "" else HexString(s[..|s| - 1]) + Hex2(s[|s| - 1])
  }

  /** `String.prototype.slice(a, b)` for `0 <= a <= b`: both ends are clamped
      to the length of the string. */
  function Slice(s: string, a: nat, b: nat): string
    requires a <= b
  {
    if |s| <= a then "" else if |s| <= b then s[a..] else s[a..b]
  }

  /** `_buffer2uuid` as a value: the hex string cut at 8, 12, 16, 20 and 32
      and joined with '-'. */
  function UuidString(buffer: seq<byte>): string
  {
    var h := HexString(buffer);
    Slice(h, 0, 8) + "-" + Slice(h, 8, 12) + "-" + Slice(h, 12, 16) + "-"
      + Slice(h, 16, 20) + "-" + Slice(h, 20, 32)
  }

  /** `_buffer2uuid`: appends each byte's `toString(16)`, padded with a
      leading "0" when it has one digit, then joins the five groups. */
  method Buffer2Uuid(buffer: seq<byte>) returns (uuid: string)
    ensures uuid == UuidString(buffer)
  {
    var hex := "";
    var i := 0;
    while i < |buffer|
      invariant 0 <= i <= |buffer|
      invariant hex == HexString(buffer[..i])
    {
      var str := ToHex(buffer[i]);
      hex := hex + (if |str| == 1 then "0" + str else str);
      assert buffer[..i + 1][..i] == buffer[..i];
      i := i + 1;
    }
    assert buffer[..i] == buffer;
    uuid := Slice(hex, 0, 8) + "-" + Slice(hex, 8, 12) + "-" + Slice(hex, 12, 16) + "-"
      + Slice(hex, 16, 20) + "-" + Slice(hex, 20, 32);
  }

  /** Each byte takes exactly two lower-case hex digits, at positions 2i and
      2i+1. */
  lemma {:induction false} HexStringDigits(s: seq<byte>)
    ensures |HexString(s)| == 2 * |s|
    ensures forall i :: 0 <= i < |s| ==> HexString(s)[2 * i..2 * i + 2] == Hex2(s[i])
    ensures forall j :: 0 <= j < |HexString(s)| ==> IsLowerHex(HexString(s)[j])
  {
    if s != [] {
      var s' := s[..|s| - 1];
      HexStringDigits(s');
      var h := HexString(s);
      assert h == HexString(s') + Hex2(s[|s| - 1]);
      forall i | 0 <= i < |s|
        ensures h[2 * i..2 * i + 2] == Hex2(s[i])
      {
        if i < |s| - 1 {
          assert h[2 * i..2 * i + 2] == HexString(s')[2 * i..2 * i + 2];
          assert s'[i] == s[i];
        }
      }
    }
  }

  /** A 16-byte identifier renders as 36 characters: hyphens at 8, 13, 18 and
      23 and lower-case hex digits everywhere else. */
  lemma UuidShape(buffer: seq<byte>)
    requires |buffer| == 16
    ensures |UuidString(buffer)| == 36
    ensures var u := UuidString(buffer);
      u[8] == '-' && u[13] == '-' && u[18] == '-' && u[23] == '-'
    ensures forall j :: 0 <= j < 36 && j != 8 && j != 13 && j != 18 && j != 23 ==>
      IsLowerHex(UuidString(buffer)[j])
  {
    HexStringDigits(buffer);
    var h := HexString(buffer);
    UuidOfHex(buffer);
    Regroup(h[0..8], h[8..12], h[12..16], h[16..20], h[20..32]);
    var u := UuidString(buffer);
    forall j | 0 <= j < 36 && j != 8 && j != 13 && j != 18 && j != 23
      ensures IsLowerHex(u[j])
    {
      if j < 8 { assert u[j] == h[j]; }
      else if j < 13 { assert u[j] == h[j - 1]; }
      else if j < 18 { assert u[j] == h[j - 2]; }
      else if j < 23 { assert u[j] == h[j - 3]; }
      else { assert u[j] == h[j - 4]; }
    }
  }

  /** The five groups of a joined identifier can be cut out again. */
  lemma Regroup(a: string, b: string, c: string, d: string, e: string)
    requires |a| == 8 && |b| == 4 && |c| == 4 && |d| == 4 && |e| == 12
    ensures var u := a + "-" + b + "-" + c + "-" + d + "-" + e;
      |u| == 36 && u[..8] == a && u[9..13] == b && u[14..18] == c && u[19..23] == d && u[24..] == e
      && u[8] == '-' && u[13] == '-' && u[18] == '-' && u[23] == '-'
  {
    var u := a + "-" + b + "-" + c + "-" + d + "-" + e;
    assert u[..8] == a;
    assert u[9..13] == b;
    assert u[14..18] == c;
    assert u[19..23] == d;
    assert u[24..] == e;
  }

  /** With 32 hex digits the slices are the plain groups. */
  lemma UuidOfHex(buffer: seq<byte>)
    requires |HexString(buffer)| == 32
    ensures var h := HexString(buffer);
      UuidString(buffer) == h[0..8] + "-" + h[8..12] + "-" + h[12..16] + "-" + h[16..20] + "-" + h[20..32]
  {
  }

  /** Dropping the four hyphens gives back the 32 hex digits of the bytes, in
      order. */
  lemma UuidGroups(buffer: seq<byte>)
    requires |buffer| == 16
    ensures var u := UuidString(buffer);
      |u| == 36 && u[..8] + u[9..13] + u[14..18] + u[19..23] + u[24..] == HexString(buffer)
  {
    HexStringDigits(buffer);
    var h := HexString(buffer);
    UuidOfHex(buffer);
    Regroup(h[0..8], h[8..12], h[12..16], h[16..20], h[20..32]);
    assert h == h[0..8] + h[8..12] + h[12..16] + h[16..20] + h[20..32];
  }

  /** The value of a lower-case hex digit. */
  function DigitValue(c: char): (d: nat)
    ensures d < 16
  {
    if '0' <= c <= '9' then c as int - '0' as int
    else if 'a' <= c <= 'f' then c as int - 'a' as int + 10
    else 0
  }

  /** Reads a string of hex digit pairs back into bytes. */
  function DecodeHex(h: string): seq<byte>
    decreases |h|
  {
    if |h| < 2 then []
    else DecodeHex(h[..|h| - 2]) + [(16 * DigitValue(h[|h| - 2]) + DigitValue(h[|h| - 1])) as byte]
  }

  lemma HexDigitValue(d: nat)
    requires d < 16
    ensures DigitValue(HexDigit(d)) == d
  {
  }

  /** The two digits of a byte decode back to it. */
  lemma Hex2Decodes(b: byte)
    ensures (16 * DigitValue(Hex2(b)[0]) + DigitValue(Hex2(b)[1])) as byte == b
  {
    var hi, lo := b as nat / 16, b as nat % 16;
    HexDigitValue(hi);
    HexDigitValue(lo);
    assert 16 * hi + lo == b as nat;
  }

  /** Decoding a string followed by one byte's two digits. */
  lemma DecodeHexSnoc(h: string, b: byte)
    ensures DecodeHex(h + Hex2(b)) == DecodeHex(h) + [b]
  {
    var g := h + Hex2(b);
    assert g[..|g| - 2] == h;
    assert g[|g| - 2] == Hex2(b)[0] && g[|g| - 1] == Hex2(b)[1];
    Hex2Decodes(b);
  }

  /** The hex rendering loses nothing: it decodes back to the bytes. */
  lemma {:induction false} HexRoundTrip(s: seq<byte>)
    ensures DecodeHex(HexString(s)) == s
  {
    if s != [] {
      var s', b := s[..|s| - 1], s[|s| - 1];
      HexRoundTrip(s');
      assert HexString(s) == HexString(s') + Hex2(b);
      DecodeHexSnoc(HexString(s'), b);
      assert s == s' + [b];
    }
  }

  /** Two `uuid` boxes share a key exactly when their 16 identifier bytes are
      equal. */
  lemma UuidInjective(a: seq<byte>, b: seq<byte>)
    requires |a| == 16 && |b| == 16
    ensures UuidString(a) == UuidString(b) <==> a == b
  {
    if UuidString(a) == UuidString(b) {
      UuidGroups(a);
      UuidGroups(b);
      HexRoundTrip(a);
      HexRoundTrip(b);
    }
  }
}

/** Byte-level primitives of the box parser: the positioned read of the file,
    the big-endian unsigned integer decoder and the one-byte-per-char text
    decoder. */
module Bytes {

  newtype byte = x: int | 0 <= x < 256

  /** `_readBytes(fd, p, n)`: a zero-filled buffer of `n` bytes into which the
      file is read from offset `p`; bytes that lie past the end of the file
      are never read and so stay zero. */
  function Read(file: seq<byte>, p: nat, n: nat): seq<byte>
  {
    seq(n, i requires 0 <= i < n => if p + i < |file| then file[p + i] else 0)
  }

  /** The length `_readBytes` allocates when asked for `n` bytes at `p`: a
      request for 0 bytes reads to the end of the file and one byte past
      it. A negative result makes the allocation throw. */
  function ReadLength(fileSize: nat, p: nat, n: int): int
  {
    if n == 0 then fileSize - p + 1 else n
  }

  /** A read of the rest of the file and one more byte is that rest followed
      by a zero. */
  lemma ReadToEnd(file: seq<byte>, p: nat)
    requires p <= |file|
    ensures Read(file, p, ReadLength(|file|, p, 0)) == file[p..] + [0]
  {
  }

  /** A read that lies inside the file is the slice of the file at that range. */
  lemma ReadInBounds(file: seq<byte>, p: nat, n: nat)
    requires p + n <= |file|
    ensures Read(file, p, n) == file[p..p + n]
  {
  }

  /** A read that starts at or past the end of the file sees only zeros. */
  lemma ReadPastEnd(file: seq<byte>, p: nat, n: nat)
    requires |file| <= p
    ensures forall i :: 0 <= i < n ==> Read(file, p, n)[i] == 0
  {
  }

  /** The first `k` bytes of a read are the read of `k` bytes. */
  lemma ReadPrefix(file: seq<byte>, p: nat, n: nat, k: nat)
    requires k <= n
    ensures Read(file, p, n)[..k] == Read(file, p, k)
  {
  }

  function Pow256(k: nat): (r: nat)
    ensures r >= 1
  {
    if k == 0 then 1 else 256 * Pow256(k - 1)
  }

  /** The reference big-endian value of a byte string, in Horner form: the
      last byte is the least significant digit in base 256. */
  function BigEndian(s: seq<byte>): nat
  {
    if s == [] then 0 else BigEndian(s[..|s| - 1]) * 256 + s[|s| - 1] as nat
  }

  /** A leading byte contributes its value times 256 to the power of the
      number of bytes after it. */
  lemma {:induction false} BigEndianPrepend(b: byte, t: seq<byte>)
    ensures BigEndian([b] + t) == b as nat * Pow256(|t|) + BigEndian(t)
  {
    if t == [] {
      assert [b] + t == [b];
      assert [b][..0] == [];
    } else {
      var t' := t[..|t| - 1];
      assert ([b] + t)[..|t|] == [b] + t';
      BigEndianPrepend(b, t');
      calc {
        BigEndian([b] + t);
        BigEndian([b] + t') * 256 + t[|t| - 1] as nat;
        (b as nat * Pow256(|t'|) + BigEndian(t')) * 256 + t[|t| - 1] as nat;
        b as nat * (256 * Pow256(|t'|)) + (BigEndian(t') * 256 + t[|t| - 1] as nat);
        b as nat * Pow256(|t|) + BigEndian(t);
      }
    }
  }

  /** Splitting a byte string: the high part is shifted by the length of the
      low part. */
  lemma {:induction false} BigEndianAppend(a: seq<byte>, b: seq<byte>)
    ensures BigEndian(a + b) == BigEndian(a) * Pow256(|b|) + BigEndian(b)
  {
    if b == [] {
      assert a + b == a;
    } else {
      var b' := b[..|b| - 1];
      assert (a + b)[..|a + b| - 1] == a + b';
      BigEndianAppend(a, b');
      calc {
        BigEndian(a + b);
        BigEndian(a + b') * 256 + b[|b| - 1] as nat;
        (BigEndian(a) * Pow256(|b'|) + BigEndian(b')) * 256 + b[|b| - 1] as nat;
        BigEndian(a) * (256 * Pow256(|b'|)) + (BigEndian(b') * 256 + b[|b| - 1] as nat);
        BigEndian(a) * Pow256(|b|) + BigEndian(b);
      }
    }
  }

  /** An n-byte big-endian value is strictly below 256^n. */
  lemma {:induction false} BigEndianBound(s: seq<byte>)
    ensures BigEndian(s) < Pow256(|s|)
  {
    if s != [] {
      var s' := s[..|s| - 1];
      BigEndianBound(s');
      assert BigEndian(s') <= Pow256(|s'|) - 1;
      assert BigEndian(s') * 256 <= Pow256(|s'|) * 256 - 256;
    }
  }

  /** A four-byte field, such as a 32-bit box size, decodes below 2^32. */
  lemma Uint32Bound(s: seq<byte>)
    requires |s| == 4
    ensures BigEndian(s) < 0x1_0000_0000
  {
    BigEndianBound(s);
  }

  /** An all-zero byte string decodes to 0. */
  lemma {:induction false} BigEndianZeros(s: seq<byte>)
    requires forall i :: 0 <= i < |s| ==> s[i] == 0
    ensures BigEndian(s) == 0
  {
    if s != [] {
      BigEndianZeros(s[..|s| - 1]);
    }
  }

  /** `_buffer2integer`: accumulates byte `len-1-i` times `16 ** (i*2)`, that
      is 256^i, from the least significant end. */
  method Buffer2Integer(buffer: seq<byte>) returns (size: nat)
    ensures size == BigEndian(buffer)
  {
    size := 0;
    var i := 0;
    while i < |buffer|
      invariant 0 <= i <= |buffer|
      invariant size == BigEndian(buffer[|buffer| - i..])
    {
      var b := buffer[|buffer| - (1 + i)];
      assert buffer[|buffer| - (1 + i)..] == [b] + buffer[|buffer| - i..];
      BigEndianPrepend(b, buffer[|buffer| - i..]);
      size := size + b as nat * Pow256(i);
      i := i + 1;
    }
    assert buffer[|buffer| - i..] == buffer;
  }

  /** Big-endian encoding of `n` in `len` bytes (the writer's side). */
  function EncodeBigEndian(n: nat, len: nat): (r: seq<byte>)
    ensures |r| == len
  {
    if len == 0 then [] else EncodeBigEndian(n / 256, len - 1) + [(n % 256) as byte]
  }

  /** Decoding what was encoded gives the value back when it fits. */
  lemma {:induction false} DecodeEncode(n: nat, len: nat)
    requires n < Pow256(len)
    ensures BigEndian(EncodeBigEndian(n, len)) == n
  {
    if len > 0 {
      var q, r := n / 256, n % 256;
      var e := EncodeBigEndian(n, len);
      assert e == EncodeBigEndian(q, len - 1) + [r as byte];
      assert e[..len - 1] == EncodeBigEndian(q, len - 1);
      assert q < Pow256(len - 1);
      DecodeEncode(q, len - 1);
      assert BigEndian(e) == BigEndian(e[..len - 1]) * 256 + r;
    }
  }

  /** Encoding what was decoded gives the bytes back. */
  lemma {:induction false} EncodeDecode(s: seq<byte>)
    ensures EncodeBigEndian(BigEndian(s), |s|) == s
  {
    if s != [] {
      var s' := s[..|s| - 1];
      EncodeDecode(s');
      var n := BigEndian(s);
      assert n / 256 == BigEndian(s') && n % 256 == s[|s| - 1] as nat;
    }
  }

  /** `_buffer2string`: `String.fromCharCode` applied to the bytes, one
      character per byte whose code is the byte's value. */
  function Latin1(s: seq<byte>): (r: string)
    ensures |r| == |s|
    ensures forall i :: 0 <= i < |s| ==> r[i] as int == s[i] as int
  {
    seq(|s|, i requires 0 <= i < |s| => (s[i] as int) as char)
  }

  /** Distinct byte strings decode to distinct strings. */
  lemma Latin1Injective(a: seq<byte>, b: seq<byte>)
    requires Latin1(a) == Latin1(b)
    ensures a == b
  {
    assert |a| == |b|;
    forall i | 0 <= i < |a|
      ensures a[i] == b[i]
    {
      assert Latin1(a)[i] == Latin1(b)[i];
    }
  }
}

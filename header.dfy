/** The box header reader: the 32-bit size, the four-character type and the
    64-bit extended size of section 4.2 of ISO/IEC 14496-12. */
module BoxHeader {
  import opened Bytes
  import opened Values

  /** The declared total size of a box (header included) and its type. */
  datatype Header = Header(size: nat, boxType: string)

  /** The 32-bit size field at the start of a box. */
  function Size32(file: seq<byte>, pos: nat): nat
  {
    BigEndian(Read(file, pos, 4))
  }

  /** The four type bytes that follow the size field, one char per byte. */
  function TypeAt(file: seq<byte>, pos: nat): string
  {
    Latin1(Read(file, pos + 4, 4))
  }

  /** The header at `pos`: a size of 1 means the real size is the 64-bit
      value after the type; 0 and 2..7 are rejected; anything else is the
      size itself. */
  function HeaderAt(file: seq<byte>, pos: nat): (r: Result<Header>)
    ensures r.Ok? ==> pos < |file|
    ensures r.Ok? ==> r.value.boxType == TypeAt(file, pos)
    ensures r.Ok? && Size32(file, pos) != 1 ==> 8 <= r.value.size < 0x1_0000_0000
    ensures r.Ok? ==> r.value.size < 0x1_0000_0000_0000_0000
    ensures r.Err? <==> Size32(file, pos) < 8 && Size32(file, pos) != 1
    ensures r.Err? ==> r.error == SizeError(Size32(file, pos), TypeAt(file, pos))
  {
    var size := Size32(file, pos);
    var t := TypeAt(file, pos);
    Uint32Bound(Read(file, pos, 4));
    BigEndianBound(Read(file, pos + 8, 8));
    if pos >= |file| then
      ReadPastEnd(file, pos, 4);
      BigEndianZeros(Read(file, pos, 4));
      Err(SizeError(size, t))
    else if size < 8 then
      if size == 1 then Ok(Header(BigEndian(Read(file, pos + 8, 8)), t))
      else Err(SizeError(size, t))
    else Ok(Header(size, t))
  }

  /** `_readSizeAndType`: reads the size and the type, and for a size below
      8 either reads the 64-bit size (size 1) or throws `SizeError`. */
  method ReadSizeAndType(file: seq<byte>, position: nat) returns (r: Result<Header>)
    ensures r == HeaderAt(file, position)
  {
    var buffer := Read(file, position, 4);
    var size := Buffer2Integer(buffer);
    buffer := Read(file, position + 4, 4);
    var t := Latin1(buffer);
    if size < 8 {
      if size == 1 {
        buffer := Read(file, position + 4 + 4, 8);
        size := Buffer2Integer(buffer);
      } else {
        return Err(SizeError(size, t));
      }
    }
    return Ok(Header(size, t));
  }

  /** The bytes of a compact header: a 32-bit size and the type bytes. */
  function EncodeHeader(size: nat, typeBytes: seq<byte>): seq<byte>
  {
    EncodeBigEndian(size, 4) + typeBytes
  }

  /** The bytes of an extended header: size 1, the type bytes and the 64-bit
      size. */
  function EncodeExtendedHeader(size: nat, typeBytes: seq<byte>): seq<byte>
  {
    EncodeBigEndian(1, 4) + typeBytes + EncodeBigEndian(size, 8)
  }

  lemma ReadAtStart(a: seq<byte>, rest: seq<byte>)
    ensures Read(a + rest, 0, |a|) == a
  {
    ReadInBounds(a + rest, 0, |a|);
    assert (a + rest)[0..|a|] == a;
  }

  /** The bytes at `|pre|` of `pre + mid + post` are `mid`. */
  lemma ReadMiddle(pre: seq<byte>, mid: seq<byte>, post: seq<byte>)
    ensures Read(pre + mid + post, |pre|, |mid|) == mid
  {
    var f := pre + mid + post;
    ReadInBounds(f, |pre|, |mid|);
    assert f[|pre|..|pre| + |mid|] == mid;
  }

  /** A compact header with a size from 8 up to 2^32 - 1 reads back as that
      size and type. */
  lemma CompactHeaderRoundTrip(size: nat, typeBytes: seq<byte>, rest: seq<byte>)
    requires 8 <= size < 0x1_0000_0000 && |typeBytes| == 4
    ensures HeaderAt(EncodeHeader(size, typeBytes) + rest, 0) == Ok(Header(size, Latin1(typeBytes)))
  {
    var file := EncodeHeader(size, typeBytes) + rest;
    var sizeBytes := EncodeBigEndian(size, 4);
    assert file == sizeBytes + (typeBytes + rest);
    ReadAtStart(sizeBytes, typeBytes + rest);
    DecodeEncode(size, 4);
    ReadInBounds(file, 4, 4);
    assert file[4..8] == typeBytes;
  }

  /** An extended header reads back as its 64-bit size, whatever that size
      is (it is not checked against 8). */
  lemma ExtendedHeaderRoundTrip(size: nat, typeBytes: seq<byte>, rest: seq<byte>)
    requires size < 0x1_0000_0000_0000_0000 && |typeBytes| == 4
    ensures HeaderAt(EncodeExtendedHeader(size, typeBytes) + rest, 0) == Ok(Header(size, Latin1(typeBytes)))
  {
    var file := EncodeExtendedHeader(size, typeBytes) + rest;
    ExtendedHeaderBytes(EncodeBigEndian(1, 4), typeBytes, EncodeBigEndian(size, 8), rest);
    DecodeEncode(1, 4);
    DecodeEncode(size, 8);
    assert Size32(file, 0) == 1;
  }

  /** Where the three fields of an extended header lie. */
  lemma ExtendedHeaderBytes(one: seq<byte>, typeBytes: seq<byte>, large: seq<byte>, rest: seq<byte>)
    requires |one| == 4 && |typeBytes| == 4 && |large| == 8
    ensures var file := one + typeBytes + large + rest;
      Read(file, 0, 4) == one && Read(file, 4, 4) == typeBytes && Read(file, 8, 8) == large
  {
    var file := one + typeBytes + large + rest;
    assert file == [] + one + (typeBytes + large + rest);
    ReadMiddle([], one, typeBytes + large + rest);
    assert file == one + typeBytes + (large + rest);
    ReadMiddle(one, typeBytes, large + rest);
    ReadMiddle(one + typeBytes, large, rest);
  }

  /** A 32-bit size of 0 or 2..7 fails with `SizeError` carrying that size
      and the type. */
  lemma SmallSizeRejected(size: nat, typeBytes: seq<byte>, rest: seq<byte>)
    requires size < 8 && size != 1 && |typeBytes| == 4
    ensures HeaderAt(EncodeHeader(size, typeBytes) + rest, 0) == Err(SizeError(size, Latin1(typeBytes)))
  {
    var file := EncodeHeader(size, typeBytes) + rest;
    var sizeBytes := EncodeBigEndian(size, 4);
    assert file == sizeBytes + (typeBytes + rest);
    ReadAtStart(sizeBytes, typeBytes + rest);
    DecodeEncode(size, 4);
    ReadInBounds(file, 4, 4);
    assert file[4..8] == typeBytes;
  }
}

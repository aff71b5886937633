/** The per-type field decoders. Each one starts from the box's first byte
    `pos`, skips the 8-byte compact header (also after a 16-byte extended
    one) and walks a cursor through the fixed layout of its box type. The
    section numbers below are those of ISO/IEC 14496-12, the ISO base media
    file format.

    For every decoder a function states the result with every field at its
    offset from the start of the box, and the method that walks the cursor
    is proved to produce exactly that value. */
module FieldDecoders {
  import opened Bytes
  import opened Values
  import opened Uuid

  /** The byte at offset `i` as `_readBytes` delivers it: zero past the end
      of the file. */
  function ByteAt(file: seq<byte>, i: nat): byte
  {
    if i < |file| then file[i] else 0
  }

  /** The big-endian value of the `n` bytes at `p`, read straight from the
      file. It is the same value as `BigEndian(Read(file, p, n))`
      (`UintValueOfRead`); the decoders' functions use this form because it
      never builds the intermediate buffer, which keeps their proofs cheap. */
  function UintValue(file: seq<byte>, p: nat, n: nat): nat
  {
    if n == 0 then 0 else UintValue(file, p, n - 1) * 256 + ByteAt(file, p + n - 1) as nat
  }

  /** A big-endian unsigned field. */
  function UintAt(file: seq<byte>, p: nat, n: nat): Value
  {
    Num(UintValue(file, p, n))
  }

  /** A field's value is `_buffer2integer` of the bytes `_readBytes`
      returns. */
  lemma {:induction false} UintValueOfRead(file: seq<byte>, p: nat, n: nat)
    ensures UintValue(file, p, n) == BigEndian(Read(file, p, n))
  {
    if n > 0 {
      UintValueOfRead(file, p, n - 1);
      ReadPrefix(file, p, n, n - 1);
    }
  }

  /** A fixed-width text field, one char per byte. */
  function TextAt(file: seq<byte>, p: nat, n: nat): Value
  {
    Str(Latin1(Read(file, p, n)))
  }

  /** The version byte of a full box, right after the 8-byte header. */
  function VersionAt(file: seq<byte>, pos: nat): nat
  {
    ByteAt(file, pos + 8) as nat
  }

  /** Reads `n` bytes at `p` and decodes them as a big-endian integer. */
  method ReadUint(file: seq<byte>, p: nat, n: nat) returns (v: Value)
    ensures v == UintAt(file, p, n)
  {
    var x := Buffer2Integer(Read(file, p, n));
    UintValueOfRead(file, p, n);
    v := Num(x);
  }

  /** The integer part of a 16.16 fixed-point field: the first two of its
      four bytes, big-endian. */
  function FixedIntAt(file: seq<byte>, p: nat): Value
  {
    Num(BigEndian(Read(file, p, 4)[..2]))
  }

  /** Reads a 4-byte 16.16 field at `p` and decodes its first two bytes. */
  method ReadFixedInt(file: seq<byte>, p: nat) returns (v: Value)
    ensures v == FixedIntAt(file, p)
  {
    var buffer := Read(file, p, 4);
    var x := Buffer2Integer(buffer[..2]);
    v := Num(x);
  }

  // ---------------------------------------------------------------- full box

  /** Section 4.2: a full box carries a 1-byte version and 3 bytes of flags
      at offset 8. */
  function FullBoxFields(size: nat, boxType: string, file: seq<byte>, pos: nat): map<string, Value>
  {
    SizeType(size, boxType)["version" := Num(VersionAt(file, pos))]["flag" := UintAt(file, pos + 9, 3)]
  }

  /** `parseFullBox`: returns the box with `version` and `flag` and the
      cursor 12 bytes past the start of the box. */
  method ParseFullBox(size: nat, boxType: string, file: seq<byte>, pos: nat)
    returns (box: map<string, Value>, position: nat)
    ensures box == FullBoxFields(size, boxType, file, pos)
    ensures box["version"] == Num(VersionAt(file, pos))
    ensures position == pos + 12
  {
    box := SizeType(size, boxType);
    position := pos + 8;
    var buffer := Read(file, position, 1);
    box := box["version" := Num(buffer[0] as nat)];
    position := position + 1;
    var flag := ReadUint(file, position, 3);
    box := box["flag" := flag];
    position := position + 3;
  }

  // -------------------------------------------------------------------- ftyp

  /** The number of 4-byte brands the loop reads between offset 16 and the
      end of the box: the remaining length divided by 4, rounded up. */
  function BrandCount(size: nat): nat
  {
    if size <= 16 then 0 else (size - 16 + 3) / 4
  }

  /** Section 4.3: major brand at 8, minor version at 12, then the
      compatible brands, in file order, from 16 to the end of the box. */
  function FtypBox(size: nat, boxType: string, file: seq<byte>, pos: nat): Value
  {
    var brands := seq(BrandCount(size), i requires 0 <= i < BrandCount(size) => TextAt(file, pos + 16 + 4 * i, 4));
    Obj(SizeType(size, boxType)
      ["majorBrand" := TextAt(file, pos + 8, 4)]
      ["minorVersion" := UintAt(file, pos + 12, 4)]
      ["compatibleBrands" := Arr(brands)])
  }

  /** `parseBox_ftyp`: reads the two fixed fields, then 4-byte brands while
      the cursor is below the end of the box. */
  method ParseFtyp(size: nat, boxType: string, file: seq<byte>, pos: nat) returns (r: Value)
    ensures r == FtypBox(size, boxType, file, pos)
    ensures |r.fields["compatibleBrands"].items| == BrandCount(size)
  {
    var box := SizeType(size, boxType);
    var position := pos + 8;
    var buffer := Read(file, position, 4);
    box := box["majorBrand" := Str(Latin1(buffer))];
    position := position + 4;
    var minorVersion := ReadUint(file, position, 4);
    box := box["minorVersion" := minorVersion];
    position := position + 4;
    var brands: seq<Value> := [];
    var endPosition := position - 16 + size;
    while position < endPosition
      invariant position == pos + 16 + 4 * |brands|
      invariant |brands| <= BrandCount(size)
      invariant forall i :: 0 <= i < |brands| ==> brands[i] == TextAt(file, pos + 16 + 4 * i, 4)
    {
      buffer := Read(file, position, 4);
      brands := brands + [Str(Latin1(buffer))];
      position := position + 4;
    }
    assert |brands| == BrandCount(size);
    assert brands == seq(BrandCount(size), i requires 0 <= i < BrandCount(size) => TextAt(file, pos + 16 + 4 * i, 4));
    box := box["compatibleBrands" := Arr(brands)];
    r := Obj(box);
  }

  // -------------------------------------------------------------------- mvhd

  /** Section 8.2.2: version 1 has 64-bit times and duration, version 0
      32-bit ones; rate, volume, reserved, matrix and pre-defined (76 bytes)
      are skipped and `next_track_ID` follows at 116 or 104. */
  function MvhdBox(size: nat, boxType: string, file: seq<byte>, pos: nat): Value
  {
    var box := FullBoxFields(size, boxType, file, pos);
    if VersionAt(file, pos) == 1 then
      Obj(box
        ["creationTime" := UintAt(file, pos + 12, 8)]
        ["modificationTime" := UintAt(file, pos + 20, 8)]
        ["timescale" := UintAt(file, pos + 28, 4)]
        ["duration" := UintAt(file, pos + 32, 8)]
        ["nextTrackID" := UintAt(file, pos + 116, 4)])
    else
      Obj(box
        ["creationTime" := UintAt(file, pos + 12, 4)]
        ["modificationTime" := UintAt(file, pos + 16, 4)]
        ["timescale" := UintAt(file, pos + 20, 4)]
        ["duration" := UintAt(file, pos + 24, 4)]
        ["nextTrackID" := UintAt(file, pos + 104, 4)])
  }

  /** `parseBox_mvhd`. */
  method ParseMvhd(size: nat, boxType: string, file: seq<byte>, pos: nat) returns (r: Value)
    ensures r == MvhdBox(size, boxType, file, pos)
  {
    var box, position := ParseFullBox(size, boxType, file, pos);
    var v: Value;
    if box["version"] == Num(1) {
      v := ReadUint(file, position, 8);
      box := box["creationTime" := v];
      position := position + 8;
      v := ReadUint(file, position, 8);
      box := box["modificationTime" := v];
      position := position + 8;
      v := ReadUint(file, position, 4);
      box := box["timescale" := v];
      position := position + 4;
      v := ReadUint(file, position, 8);
      box := box["duration" := v];
      position := position + 8;
    } else {
      v := ReadUint(file, position, 4);
      box := box["creationTime" := v];
      position := position + 4;
      v := ReadUint(file, position, 4);
      box := box["modificationTime" := v];
      position := position + 4;
      v := ReadUint(file, position, 4);
      box := box["timescale" := v];
      position := position + 4;
      v := ReadUint(file, position, 4);
      box := box["duration" := v];
      position := position + 4;
    }
    position := position + 4;          // rate
    position := position + 2;          // volume
    position := position + 2 + 4 * 2; // reserved
    position := position + 4 * 9;     // matrix
    position := position + 4 * 6;     // pre_defined
    v := ReadUint(file, position, 4);
    box := box["nextTrackID" := v];
    r := Obj(box);
  }

  /** The movie header object holds exactly the full box fields, the four
      times and `nextTrackID`; in version 0 the times and the duration are
      32-bit values. */
  lemma MvhdFields(size: nat, boxType: string, file: seq<byte>, pos: nat)
    ensures var b := MvhdBox(size, boxType, file, pos).fields;
      b.Keys == {"size", "type", "version", "flag", "creationTime", "modificationTime",
                 "timescale", "duration", "nextTrackID"}
      && (VersionAt(file, pos) != 1 ==>
            b["creationTime"].n < 0x1_0000_0000 && b["modificationTime"].n < 0x1_0000_0000
            && b["duration"].n < 0x1_0000_0000)
  {
    if VersionAt(file, pos) != 1 {
      UintBound32(file, pos + 12);
      UintBound32(file, pos + 16);
      UintBound32(file, pos + 24);
    }
  }

  /** A 4-byte field is below 2^32. */
  lemma UintBound32(file: seq<byte>, p: nat)
    ensures UintValue(file, p, 4) < 0x1_0000_0000
  {
    UintValueOfRead(file, p, 4);
    Uint32Bound(Read(file, p, 4));
  }

  // -------------------------------------------------------------------- tkhd

  /** Where the fields after `duration` start: 44 for version 1, 32 for
      version 0. */
  function TkhdTail(file: seq<byte>, pos: nat): nat
  {
    if VersionAt(file, pos) == 1 then pos + 44 else pos + 32
  }

  /** Section 8.3.2. `reserved` is written twice, first with the 8 bytes
      after `duration`, then with the 2 bytes before the matrix; width and
      height are the first 2 bytes of their 4-byte fields. */
  function TkhdBox(size: nat, boxType: string, file: seq<byte>, pos: nat): Value
  {
    var q := TkhdTail(file, pos);
    Obj(TkhdHead(size, boxType, file, pos)
      ["reserved" := UintAt(file, q, 8)]
      ["layer" := UintAt(file, q + 8, 2)]
      ["alternateGroup" := UintAt(file, q + 10, 2)]
      ["volume" := UintAt(file, q + 12, 2)]
      ["reserved" := UintAt(file, q + 14, 2)]
      ["matrix" := UintAt(file, q + 16, 36)]
      ["width" := FixedIntAt(file, q + 52)]
      ["height" := FixedIntAt(file, q + 56)])
  }

  /** The version-dependent fields of `tkhd`, up to `duration`. */
  function TkhdHead(size: nat, boxType: string, file: seq<byte>, pos: nat): map<string, Value>
  {
    if VersionAt(file, pos) == 1 then
      FullBoxFields(size, boxType, file, pos)
        ["creationTime" := UintAt(file, pos + 12, 8)]
        ["modificationTime" := UintAt(file, pos + 20, 8)]
        ["trackID" := UintAt(file, pos + 28, 4)]
        ["duration" := UintAt(file, pos + 36, 8)]
    else
      FullBoxFields(size, boxType, file, pos)
        ["creationTime" := UintAt(file, pos + 12, 4)]
        ["modificationTime" := UintAt(file, pos + 16, 4)]
        ["trackID" := UintAt(file, pos + 20, 4)]
        ["duration" := UintAt(file, pos + 28, 4)]
  }

  /** `parseBox_tkhd` up to `duration`: the fields whose widths depend on
      the version. */
  method ParseTkhdHead(size: nat, boxType: string, file: seq<byte>, pos: nat)
    returns (box: map<string, Value>, position: nat)
    ensures box == TkhdHead(size, boxType, file, pos) && position == TkhdTail(file, pos)
  {
    box, position := ParseFullBox(size, boxType, file, pos);
    var v: Value;
    if box["version"] == Num(1) {
      v := ReadUint(file, position, 8);
      box := box["creationTime" := v];
      position := position + 8;
      v := ReadUint(file, position, 8);
      box := box["modificationTime" := v];
      position := position + 8;
      v := ReadUint(file, position, 4);
      box := box["trackID" := v];
      position := position + 4;
      position := position + 4;  // reserved
      v := ReadUint(file, position, 8);
      box := box["duration" := v];
      position := position + 8;
    } else {
      v := ReadUint(file, position, 4);
      box := box["creationTime" := v];
      position := position + 4;
      v := ReadUint(file, position, 4);
      box := box["modificationTime" := v];
      position := position + 4;
      v := ReadUint(file, position, 4);
      box := box["trackID" := v];
      position := position + 4;
      position := position + 4;  // reserved
      v := ReadUint(file, position, 4);
      box := box["duration" := v];
      position := position + 4;
    }
  }

  /** `parseBox_tkhd`. */
  method ParseTkhd(size: nat, boxType: string, file: seq<byte>, pos: nat) returns (r: Value)
    ensures r == TkhdBox(size, boxType, file, pos)
  {
    var box, position := ParseTkhdHead(size, boxType, file, pos);
    var v: Value;
    v := ReadUint(file, position, 4 * 2);
    box := box["reserved" := v];
    position := position + 4 * 2;
    v := ReadUint(file, position, 2);
    box := box["layer" := v];
    position := position + 2;
    v := ReadUint(file, position, 2);
    box := box["alternateGroup" := v];
    position := position + 2;
    v := ReadUint(file, position, 2);
    box := box["volume" := v];
    position := position + 2;
    v := ReadUint(file, position, 2);
    box := box["reserved" := v];
    position := position + 2;
    v := ReadUint(file, position, 4 * 9);
    box := box["matrix" := v];
    position := position + 4 * 9;
    v := ReadFixedInt(file, position);
    box := box["width" := v];
    position := position + 4;
    v := ReadFixedInt(file, position);
    box := box["height" := v];
    r := Obj(box);
  }

  /** `reserved` keeps the 2 bytes before the matrix; width and height are
      the integer part of the 16.16 fixed-point value of their 4-byte
      field. */
  lemma TkhdDimensions(size: nat, boxType: string, file: seq<byte>, pos: nat)
    ensures var q := TkhdTail(file, pos);
      TkhdBox(size, boxType, file, pos).fields["reserved"] == UintAt(file, q + 14, 2)
      && TkhdBox(size, boxType, file, pos).fields["width"] == Num(BigEndian(Read(file, q + 52, 4)) / 0x1_0000)
      && TkhdBox(size, boxType, file, pos).fields["height"] == Num(BigEndian(Read(file, q + 56, 4)) / 0x1_0000)
  {
    var q := TkhdTail(file, pos);
    IntegerPart(file, q + 52);
    IntegerPart(file, q + 56);
    ReadPrefix(file, q + 52, 4, 2);
    ReadPrefix(file, q + 56, 4, 2);
  }

  /** The first two bytes of a 4-byte big-endian field are its value divided
      by 2^16. */
  lemma IntegerPart(file: seq<byte>, p: nat)
    ensures BigEndian(Read(file, p, 2)) == BigEndian(Read(file, p, 4)) / 0x1_0000
  {
    var s := Read(file, p, 4);
    ReadPrefix(file, p, 4, 2);
    assert s == s[..2] + s[2..];
    BigEndianAppend(s[..2], s[2..]);
    BigEndianBound(s[2..]);
    assert Pow256(2) == 0x1_0000;
  }

  // -------------------------------------------------------------------- hdlr

  /** `Array.prototype.findIndex` for a byte value: the first index holding
      it, or -1. */
  function FindIndex(buffer: seq<byte>, x: byte): (i: int)
    ensures -1 <= i < |buffer|
    ensures i >= 0 ==> buffer[i] == x && x !in buffer[..i]
    ensures i == -1 <==> x !in buffer
  {
    if buffer == [] then -1
    else if buffer[0] == x then 0
    else
      var j := FindIndex(buffer[1..], x);
      assert j >= 0 ==> buffer[..j + 1] == [buffer[0]] + buffer[1..][..j];
      if j == -1 then -1 else j + 1
  }

  /** `buffer.slice(0, end)`: a negative end counts from the back. */
  function SliceTo(buffer: seq<byte>, end: int): seq<byte>
  {
    if end < 0 then (if |buffer| + end <= 0 then [] else buffer[..|buffer| + end])
    else if |buffer| <= end then buffer
    else buffer[..end]
  }

  /** Section 8.4.3: `handler_type` at 16, the name from 32 to the end of
      the box, cut at the first NUL. A box shorter than 32 bytes asks for a
      buffer of negative length; a box of exactly 32 bytes asks for 0 bytes,
      which `_readBytes` turns into the rest of the file and one byte more:
      a negative length too when the name field would start more than one
      byte past the end of the file. */
  function HdlrBox(size: nat, boxType: string, file: seq<byte>, pos: nat): Result<Value>
  {
    var length := ReadLength(|file|, pos + 32, size - 32);
    if length < 0 then Err(NegativeLength(length, boxType))
    else
      var buffer := Read(file, pos + 32, length);
      var name := SliceTo(buffer, FindIndex(buffer, 0));
      Ok(Obj(FullBoxFields(size, boxType, file, pos)
        ["HandlerType" := TextAt(file, pos + 16, 4)]
        ["name" := Str(Latin1(name))]))
  }

  /** `parseBox_hdlr`. */
  method ParseHdlr(size: nat, boxType: string, file: seq<byte>, pos: nat) returns (r: Result<Value>)
    ensures r == HdlrBox(size, boxType, file, pos)
  {
    var endPosition := pos + size;
    var box, position := ParseFullBox(size, boxType, file, pos);
    position := position + 4;  // pre_defined
    var buffer := Read(file, position, 4);
    box := box["HandlerType" := Str(Latin1(buffer))];
    position := position + 4;
    position := position + 4 * 3;  // reserved
    var length := endPosition - position;
    if length == 0 {
      length := |file| - position + 1;
    }
    if length < 0 {
      return Err(NegativeLength(length, boxType));
    }
    buffer := Read(file, position, length);
    var nullIndex := FindIndex(buffer, 0);
    var target := SliceTo(buffer, nullIndex);
    box := box["name" := Str(Latin1(target))];
    r := Ok(Obj(box));
  }

  /** The name is the text before the first NUL of the name field; when the
      field has no NUL its last byte is dropped (the slice end is -1). */
  lemma HdlrName(size: nat, boxType: string, file: seq<byte>, pos: nat)
    requires size > 32
    ensures var field := Read(file, pos + 32, size - 32);
      var r := HdlrBox(size, boxType, file, pos);
      r.Ok? && r.value.fields["name"].Str?
      && var name := r.value.fields["name"].s;
      (0 in field ==>
        |name| < |field| && field[|name|] == 0 && name == Latin1(field[..|name|]) && 0 !in field[..|name|])
      && (0 !in field && field != [] ==> name == Latin1(field[..|field| - 1]))
  {
  }

  /** A box of exactly 32 bytes has no name field of its own: its name is
      the text of the rest of the file up to the first NUL, or all of it
      when there is none (the extra byte read past the end is the NUL). */
  lemma HdlrNameReadsToEnd(boxType: string, file: seq<byte>, pos: nat)
    requires pos + 32 <= |file|
    ensures var rest := file[pos + 32..];
      var r := HdlrBox(32, boxType, file, pos);
      r.Ok? && r.value.fields["name"].Str?
      && var name := r.value.fields["name"].s;
      |name| <= |rest| && name == Latin1(rest[..|name|]) && 0 !in rest[..|name|]
      && (|name| < |rest| ==> rest[|name|] == 0)
  {
    var rest := file[pos + 32..];
    ReadToEnd(file, pos + 32);
    var buffer := rest + [0];
    var k := FindIndex(buffer, 0);
    assert buffer[|rest|] == 0;
    assert k <= |rest|;
    assert buffer[..k] == rest[..k];
  }

  // -------------------------------------------------------------------- elst

  /** Where entry `i` of an edit list starts: entries are 20 bytes in
      version 1 and 12 bytes in version 0, after the count at 12. */
  function ElstEntryAt(pos: nat, version1: bool, i: nat): nat
  {
    pos + 16 + (if version1 then 20 * i else 12 * i)
  }

  /** Section 8.6.6: one edit-list entry. */
  function ElstEntry(file: seq<byte>, p: nat, version1: bool): Value
  {
    if version1 then
      Obj(map[
        "segmentDuration" := UintAt(file, p, 8),
        "mediaTime" := UintAt(file, p + 8, 8),
        "mediaRateInteger" := UintAt(file, p + 16, 2),
        "mediaRateFraction" := UintAt(file, p + 18, 2)])
    else
      Obj(map[
        "segmentDuration" := UintAt(file, p, 4),
        "mediaTime" := UintAt(file, p + 4, 4),
        "mediaRateInteger" := UintAt(file, p + 8, 2),
        "mediaRateFraction" := UintAt(file, p + 10, 2)])
  }

  /** The first `n` entries, in file order. */
  function ElstEntries(file: seq<byte>, pos: nat, version1: bool, n: nat): (r: seq<Value>)
    ensures |r| == n
  {
    if n == 0 then [] else ElstEntries(file, pos, version1, n - 1) + [ElstEntry(file, ElstEntryAt(pos, version1, n - 1), version1)]
  }

  /** Entry `k` is the entry read at its own offset, whatever the count. */
  lemma {:induction false} ElstEntriesAt(file: seq<byte>, pos: nat, version1: bool, n: nat, k: nat)
    requires k < n
    ensures ElstEntries(file, pos, version1, n)[k] == ElstEntry(file, ElstEntryAt(pos, version1, k), version1)
  {
    if k < n - 1 {
      ElstEntriesAt(file, pos, version1, n - 1, k);
    }
  }

  /** `entryCount` at 12, then exactly that many entries, in file order. */
  function ElstBox(size: nat, boxType: string, file: seq<byte>, pos: nat): Value
  {
    var count := BigEndian(Read(file, pos + 12, 4));
    Obj(FullBoxFields(size, boxType, file, pos)
      ["entryCount" := Num(count)]
      ["entry" := Arr(ElstEntries(file, pos, VersionAt(file, pos) == 1, count))])
  }

  /** The body of the entry loop of `parseBox_elst`: one entry and the
      cursor after it. */
  method ParseElstEntry(file: seq<byte>, position: nat, version1: bool) returns (entry: Value, next: nat)
    ensures entry == ElstEntry(file, position, version1)
    ensures next == position + (if version1 then 20 else 12)
  {
    var fields: map<string, Value> := map[];
    var v: Value;
    next := position;
    if version1 {
      v := ReadUint(file, next, 8);
      fields := fields["segmentDuration" := v];
      next := next + 8;
      v := ReadUint(file, next, 8);
      fields := fields["mediaTime" := v];
      next := next + 8;
    } else {
      v := ReadUint(file, next, 4);
      fields := fields["segmentDuration" := v];
      next := next + 4;
      v := ReadUint(file, next, 4);
      fields := fields["mediaTime" := v];
      next := next + 4;
    }
    v := ReadUint(file, next, 2);
    fields := fields["mediaRateInteger" := v];
    next := next + 2;
    v := ReadUint(file, next, 2);
    fields := fields["mediaRateFraction" := v];
    next := next + 2;
    entry := Obj(fields);
  }

  /** `parseBox_elst`: a counting loop over the entries. */
  method ParseElst(size: nat, boxType: string, file: seq<byte>, pos: nat) returns (r: Value)
    ensures r == ElstBox(size, boxType, file, pos)
    ensures |r.fields["entry"].items| == BigEndian(Read(file, pos + 12, 4))
  {
    var box, position := ParseFullBox(size, boxType, file, pos);
    ghost var version1 := VersionAt(file, pos) == 1;
    var entryCount := Buffer2Integer(Read(file, position, 4));
    box := box["entryCount" := Num(entryCount)];
    position := position + 4;
    var entries: seq<Value> := [];
    var i := 1;
    assert (box["version"] == Num(1)) == version1;
    while i <= entryCount
      invariant 1 <= i <= entryCount + 1
      invariant position == ElstEntryAt(pos, version1, i - 1)
      invariant entries == ElstEntries(file, pos, version1, i - 1)
    {
      var entry;
      entry, position := ParseElstEntry(file, position, box["version"] == Num(1));
      entries := entries + [entry];
      i := i + 1;
    }
    box := box["entry" := Arr(entries)];
    r := Obj(box);
  }

  // -------------------------------------------------------------------- uuid

  /** The identifier of a `uuid` box as text: the 16 bytes after the 8-byte
      header. */
  function UuidKey(file: seq<byte>, pos: nat): string
  {
    UuidString(Read(file, pos + 4 + 4, 16))
  }

  /** `{ <uuid>: { size, type } }`. */
  function UuidBox(size: nat, boxType: string, file: seq<byte>, pos: nat): Value
  {
    Obj(map[UuidKey(file, pos) := Obj(SizeType(size, boxType))])
  }

  /** `parseBox_uuid`. */
  method ParseUuid(size: nat, boxType: string, file: seq<byte>, pos: nat) returns (r: Value)
    ensures r == UuidBox(size, boxType, file, pos)
  {
    var buffer := Read(file, pos + 4 + 4, 16);
    var uuid := Buffer2Uuid(buffer);
    r := Obj(map[uuid := Obj(SizeType(size, boxType))]);
  }

  // -------------------------------------------------------------------- mdhd

  /** `mdhd` as the decoder reads it. Both versions read `timescale` at 20
      and `duration` at 24; version 0 skips the 4-byte modification time at
      16, version 1 does not skip anything. */
  function MdhdBox(size: nat, boxType: string, file: seq<byte>, pos: nat): Value
  {
    var version1 := VersionAt(file, pos) == 1;
    Obj(FullBoxFields(size, boxType, file, pos)
      ["timestamp" := UintAt(file, pos + 12, if version1 then 8 else 4)]
      ["timescale" := UintAt(file, pos + 20, 4)]
      ["duration" := UintAt(file, pos + 24, if version1 then 8 else 4)])
  }

  /** `parseBox_mdhd`. In version 1 the cursor moves 4 after the 8-byte
      duration; nothing is read after it, so the result is unaffected. */
  method ParseMdhd(size: nat, boxType: string, file: seq<byte>, pos: nat) returns (r: Value)
    ensures r == MdhdBox(size, boxType, file, pos)
  {
    var box, position := ParseFullBox(size, boxType, file, pos);
    var v: Value;
    if box["version"] == Num(1) {
      v := ReadUint(file, position, 8);
      box := box["timestamp" := v];
      position := position + 8;
      v := ReadUint(file, position, 4);
      box := box["timescale" := v];
      position := position + 4;
      v := ReadUint(file, position, 8);
      box := box["duration" := v];
      position := position + 4;
    } else {
      v := ReadUint(file, position, 4);
      box := box["timestamp" := v];
      position := position + 4;
      position := position + 4;  // modification_time, read and dropped
      v := ReadUint(file, position, 4);
      box := box["timescale" := v];
      position := position + 4;
      v := ReadUint(file, position, 4);
      box := box["duration" := v];
      position := position + 4;
    }
    r := Obj(box);
  }

  /** Version 0 reads the fields where section 8.4.2 puts them. In version 1
      the standard has an 8-byte modification time at 20 and the timescale
      at 28: the decoded `timescale` is the high half of that modification
      time and the decoded `duration` its low half followed by the real
      timescale. */
  lemma MdhdOffsets(size: nat, boxType: string, file: seq<byte>, pos: nat)
    ensures var b := MdhdBox(size, boxType, file, pos).fields;
      var modification := BigEndian(Read(file, pos + 20, 8));
      var timescale := BigEndian(Read(file, pos + 28, 4));
      VersionAt(file, pos) == 1 ==>
        b["timescale"] == Num(modification / 0x1_0000_0000)
        && b["duration"] == Num((modification % 0x1_0000_0000) * 0x1_0000_0000 + timescale)
  {
    var m := Read(file, pos + 20, 8);
    var d := Read(file, pos + 24, 8);
    ReadPrefix(file, pos + 20, 8, 4);
    assert m == m[..4] + m[4..];
    BigEndianAppend(m[..4], m[4..]);
    BigEndianBound(m[4..]);
    assert Pow256(4) == 0x1_0000_0000;
    assert d == m[4..] + Read(file, pos + 28, 4);
    BigEndianAppend(m[4..], Read(file, pos + 28, 4));
    BigEndianBound(m[..4]);
    UintValueOfRead(file, pos + 20, 4);
    UintValueOfRead(file, pos + 24, 8);
  }

  // -------------------------------------------------------------------- stsz

  /** Section 8.7.3.2 header fields. `sampleTotal` is always
      `sampleSize * sampleCount`: the per-sample branch tests a member named
      `smapleSize`, which is never set, so it is never taken. */
  function StszBox(size: nat, boxType: string, file: seq<byte>, pos: nat): Value
  {
    var sampleSize := UintValue(file, pos + 12, 4);
    var sampleCount := UintValue(file, pos + 16, 4);
    Obj(FullBoxFields(size, boxType, file, pos)
      ["sampleSize" := Num(sampleSize)]
      ["sampleCount" := Num(sampleCount)]
      ["sampleTotal" := Num(sampleSize * sampleCount)])
  }

  /** `parseBox_stsz`. */
  method ParseStsz(size: nat, boxType: string, file: seq<byte>, pos: nat) returns (r: Value)
    ensures r == StszBox(size, boxType, file, pos)
    ensures "smapleSize" !in r.fields
  {
    var box := SizeType(size, boxType);
    var position := pos + 8;
    var buffer := Read(file, position, 1);
    box := box["version" := Num(buffer[0] as nat)];
    position := position + 1;
    var v := ReadUint(file, position, 3);
    box := box["flag" := v];
    position := position + 3;
    v := ReadUint(file, position, 4);
    box := box["sampleSize" := v];
    position := position + 4;
    v := ReadUint(file, position, 4);
    box := box["sampleCount" := v];
    position := position + 4;
    // `box.smapleSize === 0` is false for every box: the product is taken.
    box := box["sampleTotal" := Num(box["sampleSize"].n * box["sampleCount"].n)];
    r := Obj(box);
  }

  /** The decoded `stsz` depends only on its first 20 bytes: the per-sample
      size table that follows is never read, whatever `sampleSize` is. */
  lemma StszReadsNoEntries(size: nat, boxType: string, f1: seq<byte>, f2: seq<byte>, pos: nat)
    requires pos + 20 <= |f1| && pos + 20 <= |f2|
    requires f1[pos..pos + 20] == f2[pos..pos + 20]
    ensures StszBox(size, boxType, f1, pos) == StszBox(size, boxType, f2, pos)
    ensures var b := StszBox(size, boxType, f1, pos).fields;
      b["sampleTotal"].n == b["sampleSize"].n * b["sampleCount"].n
  {
    forall p: nat, n: nat | pos <= p && p + n <= pos + 20
      ensures Read(f1, p, n) == Read(f2, p, n)
    {
      ReadInBounds(f1, p, n);
      ReadInBounds(f2, p, n);
      assert f1[p..p + n] == f1[pos..pos + 20][p - pos..p - pos + n];
      assert f2[p..p + n] == f2[pos..pos + 20][p - pos..p - pos + n];
    }
    assert f1[pos + 8] == f1[pos..pos + 20][8];
    assert f2[pos + 8] == f2[pos..pos + 20][8];
    assert Read(f1, pos + 9, 3) == Read(f2, pos + 9, 3);
    assert Read(f1, pos + 12, 4) == Read(f2, pos + 12, 4);
    assert Read(f1, pos + 16, 4) == Read(f2, pos + 16, 4);
    UintValueOfRead(f1, pos + 9, 3);
    UintValueOfRead(f2, pos + 9, 3);
    UintValueOfRead(f1, pos + 12, 4);
    UintValueOfRead(f2, pos + 12, 4);
    UintValueOfRead(f1, pos + 16, 4);
    UintValueOfRead(f2, pos + 16, 4);
  }

  // --------------------------------------------------------------- dispatch

  /** The types that have a `parseBox_<type>` member. `xxxx` is one of them:
      it is the dispatcher itself. */
  const DecoderTypes: set<string> := {"ftyp", "mvhd", "tkhd", "hdlr", "elst", "uuid", "mdhd", "stsz", "xxxx"}

  /** What `parseBox_xxxx` returns for a box that has no children. */
  function LeafBox(size: nat, boxType: string, file: seq<byte>, pos: nat): Result<Value>
  {
    if boxType == "ftyp" then Ok(FtypBox(size, boxType, file, pos))
    else if boxType == "mvhd" then Ok(MvhdBox(size, boxType, file, pos))
    else if boxType == "tkhd" then Ok(TkhdBox(size, boxType, file, pos))
    else if boxType == "hdlr" then HdlrBox(size, boxType, file, pos)
    else if boxType == "elst" then Ok(ElstBox(size, boxType, file, pos))
    else if boxType == "uuid" then Ok(UuidBox(size, boxType, file, pos))
    else if boxType == "mdhd" then Ok(MdhdBox(size, boxType, file, pos))
    else if boxType == "stsz" then Ok(StszBox(size, boxType, file, pos))
    else if boxType == "xxxx" then Err(CallStackExhausted(boxType))
    else Ok(Obj(SizeType(size, boxType)))
  }

  /** `parseBox_xxxx`: calls the decoder named after the type, if there is
      one, and otherwise returns `{ size, type }`. */
  method ParseLeaf(size: nat, boxType: string, file: seq<byte>, pos: nat) returns (r: Result<Value>)
    ensures r == LeafBox(size, boxType, file, pos)
  {
    var v: Value;
    if boxType == "ftyp" {
      v := ParseFtyp(size, boxType, file, pos);
    } else if boxType == "mvhd" {
      v := ParseMvhd(size, boxType, file, pos);
    } else if boxType == "tkhd" {
      v := ParseTkhd(size, boxType, file, pos);
    } else if boxType == "hdlr" {
      r := ParseHdlr(size, boxType, file, pos);
      return;
    } else if boxType == "elst" {
      v := ParseElst(size, boxType, file, pos);
    } else if boxType == "uuid" {
      v := ParseUuid(size, boxType, file, pos);
    } else if boxType == "mdhd" {
      v := ParseMdhd(size, boxType, file, pos);
    } else if boxType == "stsz" {
      v := ParseStsz(size, boxType, file, pos);
    } else if boxType == "xxxx" {
      return Err(CallStackExhausted(boxType));
    } else {
      v := Obj(SizeType(size, boxType));
    }
    r := Ok(v);
  }

  /** A type without a decoder becomes exactly `{ size, type }` and never
      fails. */
  lemma UnknownTypeIsPlaceholder(size: nat, boxType: string, file: seq<byte>, pos: nat)
    requires boxType !in DecoderTypes
    ensures LeafBox(size, boxType, file, pos) == Ok(Obj(map["size" := Num(size), "type" := Str(boxType)]))
  {
  }

  /** Only two leaf types make the parse fail: `xxxx`, and an `hdlr` box
      that is shorter than 32 bytes, or of exactly 32 bytes whose name
      field, at its end, starts more than one byte past the end of the
      file (the read-to-end length is then negative). */
  lemma LeafFailures(size: nat, boxType: string, file: seq<byte>, pos: nat)
    ensures LeafBox(size, boxType, file, pos).Err? <==>
      boxType == "xxxx" || (boxType == "hdlr" && (size < 32 || (size == 32 && |file| + 1 < pos + 32)))
  {
  }
}

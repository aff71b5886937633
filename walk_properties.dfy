/** What the walk promises about the object it builds: sibling boxes are met
    in file order, each advancing the cursor by its declared size; `trak`
    boxes collect into an array in file order; `uuid` boxes are filed under
    their identifier; every other type keeps its last occurrence; a type
    without a decoder becomes a bare `{ size, type }` object; and the
    failures of a header or a decoder abort the whole parse. */
module WalkProperties {
  import opened Bytes
  import opened Values
  import opened Uuid
  import opened BoxHeader
  import opened FieldDecoders
  import opened BoxWalker

  // ------------------------------------------------------------ file order

  /** The walk of one level meets its boxes one after the other: the first
      at `pos`, each next one exactly `size` bytes after the previous, each
      starting more than 8 bytes before `end`, each being the box read at
      its own position, and it stops once fewer than 9 bytes are left. */
  lemma {:induction false} VisitsInFileOrder(file: seq<byte>, pos: nat, end: nat, vs: seq<Visit>)
    requires Visits(file, pos, end) == Ok(vs)
    ensures |vs| > 0 ==> vs[0].pos == pos
    ensures forall i :: 0 <= i < |vs| - 1 ==> vs[i + 1].pos == vs[i].pos + vs[i].header.size
    ensures forall i :: 0 <= i < |vs| ==>
      pos <= vs[i].pos && vs[i].pos + 8 < end && BoxAt(file, vs[i].pos) == Ok(vs[i])
    ensures (if vs == [] then pos else vs[|vs| - 1].pos + vs[|vs| - 1].header.size) + 8 >= end
    decreases |file| + 24 - pos
  {
    if pos + 8 < end {
      var v := BoxAt(file, pos).value;
      var rest := Visits(file, pos + v.header.size, end).value;
      assert vs == [v] + rest;
      VisitsInFileOrder(file, pos + v.header.size, end, rest);
      forall i | 0 <= i < |vs| - 1
        ensures vs[i + 1].pos == vs[i].pos + vs[i].header.size
      {
        if i > 0 {
          assert vs[i] == rest[i - 1] && vs[i + 1] == rest[i];
        }
      }
      forall i | 0 <= i < |vs|
        ensures pos <= vs[i].pos && vs[i].pos + 8 < end && BoxAt(file, vs[i].pos) == Ok(vs[i])
      {
        if i > 0 {
          assert vs[i] == rest[i - 1];
        }
      }
      if rest != [] {
        assert vs[|vs| - 1] == rest[|rest| - 1];
      }
    }
  }

  /** Boxes at one level start at strictly increasing offsets, so no box is
      visited twice. */
  lemma {:induction false} VisitsStrictlyIncreasing(file: seq<byte>, pos: nat, end: nat, vs: seq<Visit>)
    requires Visits(file, pos, end) == Ok(vs)
    ensures forall i, j :: 0 <= i < j < |vs| ==> vs[i].pos < vs[j].pos
    decreases |file| + 24 - pos
  {
    if pos + 8 < end {
      var v := BoxAt(file, pos).value;
      var rest := Visits(file, pos + v.header.size, end).value;
      assert vs == [v] + rest;
      VisitsStrictlyIncreasing(file, pos + v.header.size, end, rest);
      VisitsInFileOrder(file, pos + v.header.size, end, rest);
      forall i, j | 0 <= i < j < |vs|
        ensures vs[i].pos < vs[j].pos
      {
        assert vs[j] == rest[j - 1];
        if i > 0 {
          assert vs[i] == rest[i - 1];
        }
      }
    }
  }

  // ----------------------------------------------------------- the store

  /** The values of the visits of type `t`, in order. */
  function ValuesOfType(vs: seq<Visit>, t: string): (r: seq<Value>)
    ensures |r| <= |vs|
  {
    if vs == [] then []
    else ValuesOfType(vs[..|vs| - 1], t) + (if vs[|vs| - 1].header.boxType == t then [vs[|vs| - 1].value] else [])
  }

  /** The members `k` of the `uuid` visits that carry one, in order. */
  function KeyedValues(vs: seq<Visit>, k: string): seq<Value>
  {
    if vs == [] then []
    else
      var v := vs[|vs| - 1];
      KeyedValues(vs[..|vs| - 1], k)
        + (if v.header.boxType == "uuid" && k in FieldsOf(v.value) then [FieldsOf(v.value)[k]] else [])
  }

  /** A box of another type leaves the member `t` as it was. */
  lemma StoreOtherType(box: map<string, Value>, v: Visit, t: string)
    requires v.header.boxType != t
    ensures t in Store(box, v) <==> t in box
    ensures t in box ==> Store(box, v)[t] == box[t]
  {
  }

  /** The object holds a member exactly for each type that was met. */
  lemma {:induction false} StoredTypes(vs: seq<Visit>, t: string)
    ensures t in StoreAll(map[], vs) <==> ValuesOfType(vs, t) != []
  {
    if vs != [] {
      var v := vs[|vs| - 1];
      StoredTypes(vs[..|vs| - 1], t);
      if v.header.boxType != t {
        StoreOtherType(StoreAll(map[], vs[..|vs| - 1]), v, t);
      }
    }
  }

  /** `trak` boxes (the repeated type) collect into an array holding every
      one of them in file order. */
  lemma {:induction false} RepeatedStorage(vs: seq<Visit>, t: string)
    requires PolicyOf(t) == Repeated
    ensures t in StoreAll(map[], vs) ==> StoreAll(map[], vs)[t] == Arr(ValuesOfType(vs, t))
  {
    if vs != [] {
      var v := vs[|vs| - 1];
      var before := StoreAll(map[], vs[..|vs| - 1]);
      RepeatedStorage(vs[..|vs| - 1], t);
      StoredTypes(vs[..|vs| - 1], t);
      if v.header.boxType != t {
        StoreOtherType(before, v, t);
      }
    }
  }

  /** Every other type that is not `uuid` keeps only its last occurrence. */
  lemma {:induction false} LastOccurrenceWins(vs: seq<Visit>, t: string)
    requires PolicyOf(t) == Container || PolicyOf(t) == Leaf
    ensures var values := ValuesOfType(vs, t);
      values != [] ==> t in StoreAll(map[], vs) && StoreAll(map[], vs)[t] == values[|values| - 1]
  {
    if vs != [] {
      var v := vs[|vs| - 1];
      LastOccurrenceWins(vs[..|vs| - 1], t);
      StoredTypes(vs, t);
      if v.header.boxType != t {
        StoreOtherType(StoreAll(map[], vs[..|vs| - 1]), v, t);
      }
    }
  }

  /** The `uuid` member maps each identifier to what the last `uuid` box
      with that identifier produced. */
  lemma {:induction false} KeyedStorage(vs: seq<Visit>, k: string)
    ensures "uuid" in StoreAll(map[], vs) ==> StoreAll(map[], vs)["uuid"].Obj?
    ensures var values := KeyedValues(vs, k);
      "uuid" in StoreAll(map[], vs) ==>
        (k in StoreAll(map[], vs)["uuid"].fields <==> values != [])
        && (values != [] ==> StoreAll(map[], vs)["uuid"].fields[k] == values[|values| - 1])
    ensures "uuid" !in StoreAll(map[], vs) ==> KeyedValues(vs, k) == []
  {
    if vs != [] {
      var v := vs[|vs| - 1];
      var before := StoreAll(map[], vs[..|vs| - 1]);
      KeyedStorage(vs[..|vs| - 1], k);
      if v.header.boxType != "uuid" {
        StoreOtherType(before, v, "uuid");
      }
    }
  }

  // ------------------------------------------------------ values per type

  /** A `uuid` box produces an object with exactly one member, named by
      the 36-character form of the 16 bytes after its header. */
  lemma UuidValueKeyed(file: seq<byte>, pos: nat, h: Header, v: Value)
    requires pos < |file| && h.boxType == "uuid"
    requires EntryValue(file, pos, h) == Ok(v)
    ensures FieldsOf(v).Keys == {UuidKey(file, pos)}
    ensures |UuidKey(file, pos)| == 36
  {
    UuidShape(Read(file, pos + 4 + 4, 16));
  }

  /** A type without a decoder, outside the registries, produces exactly
      `{ size, type }`, and never an error. */
  lemma UnknownTypeValue(file: seq<byte>, pos: nat, h: Header)
    requires pos < |file|
    requires h.boxType !in DecoderTypes && PolicyOf(h.boxType) == Leaf
    ensures EntryValue(file, pos, h) == Ok(Obj(SizeType(h.size, h.boxType)))
  {
    UnknownTypeIsPlaceholder(h.size, h.boxType, file, pos);
  }

  /** In a successful walk, every type without a decoder that was met is
      stored as `{ size, type }` of the last box of that type. */
  lemma UnknownTypeStored(file: seq<byte>, start: nat, end: nat, vs: seq<Visit>, t: string)
    requires Visits(file, start, end) == Ok(vs)
    requires t !in DecoderTypes && PolicyOf(t) == Leaf
    ensures var values := ValuesOfType(vs, t);
      values != [] ==>
        (t in StoreAll(map[], vs) &&
         exists i :: 0 <= i < |vs| && vs[i].header.boxType == t
           && (forall j :: i < j < |vs| ==> vs[j].header.boxType != t)
           && StoreAll(map[], vs)[t] == Obj(SizeType(vs[i].header.size, t)))
  {
    LastOccurrenceWins(vs, t);
    var values := ValuesOfType(vs, t);
    if values != [] {
      var i := LastOfType(vs, t);
      VisitRead(file, start, end, vs, i);
      var v := vs[i];
      VisitEntry(file, v);
      UnknownTypeValue(file, v.pos, v.header);
      assert StoreAll(map[], vs)[t] == Obj(SizeType(v.header.size, t));
    }
  }

  /** Each visit of a walk is the box read at its own position. */
  lemma VisitRead(file: seq<byte>, start: nat, end: nat, vs: seq<Visit>, i: nat)
    requires Visits(file, start, end) == Ok(vs) && i < |vs|
    ensures BoxAt(file, vs[i].pos) == Ok(vs[i])
  {
    VisitsInFileOrder(file, start, end, vs);
  }

  /** A box read successfully has the header read at its position and the
      value its entry produces. */
  lemma VisitEntry(file: seq<byte>, v: Visit)
    requires BoxAt(file, v.pos) == Ok(v)
    ensures v.pos < |file| && EntryValue(file, v.pos, v.header) == Ok(v.value)
  {
    var h := VisitHeader(file, v);
    var e := EntryValue(file, v.pos, h);
    assert e.Ok? && v.value == e.value;
  }

  /** The header of a box read successfully, and it is the one read at its
      position. */
  lemma VisitHeader(file: seq<byte>, v: Visit) returns (h: Header)
    requires BoxAt(file, v.pos) == Ok(v)
    ensures HeaderAt(file, v.pos) == Ok(h) && h == v.header
  {
    h := HeaderAt(file, v.pos).value;
  }

  /** The index of the last visit of type `t`, whose value ends
      `ValuesOfType`. */
  lemma {:induction false} LastOfType(vs: seq<Visit>, t: string) returns (i: nat)
    requires ValuesOfType(vs, t) != []
    ensures i < |vs| && vs[i].header.boxType == t
    ensures ValuesOfType(vs, t)[|ValuesOfType(vs, t)| - 1] == vs[i].value
    ensures forall j :: i < j < |vs| ==> vs[j].header.boxType != t
  {
    if vs[|vs| - 1].header.boxType == t {
      i := |vs| - 1;
    } else {
      var prefix := vs[..|vs| - 1];
      i := LastOfType(prefix, t);
      forall j | i < j < |vs|
        ensures vs[j].header.boxType != t
      {
        if j < |vs| - 1 {
          assert vs[j] == prefix[j];
        }
      }
    }
  }

  /** A successful walk met no `xxxx` box and no `hdlr` box shorter than 32
      bytes: either one fails the whole parse. */
  lemma NoFailingLeaf(file: seq<byte>, start: nat, end: nat, vs: seq<Visit>)
    requires Visits(file, start, end) == Ok(vs)
    ensures forall i :: 0 <= i < |vs| ==>
      vs[i].header.boxType != "xxxx" && (vs[i].header.boxType == "hdlr" ==> vs[i].header.size >= 32)
  {
    VisitsInFileOrder(file, start, end, vs);
    forall i | 0 <= i < |vs|
      ensures vs[i].header.boxType != "xxxx" && (vs[i].header.boxType == "hdlr" ==> vs[i].header.size >= 32)
    {
      VisitNotFailing(file, vs[i]);
    }
  }

  /** A box that was read successfully is neither `xxxx` nor a short `hdlr`. */
  lemma VisitNotFailing(file: seq<byte>, v: Visit)
    requires BoxAt(file, v.pos) == Ok(v)
    ensures v.header.boxType != "xxxx" && (v.header.boxType == "hdlr" ==> v.header.size >= 32)
  {
    var t := v.header.boxType;
    if t == "xxxx" || t == "hdlr" {
      VisitEntry(file, v);
      assert PolicyOf(t) == Leaf;
      LeafFailures(v.header.size, t, file, v.pos);
    }
  }

  // ------------------------------------------------------- whole files

  /** A file holding one `ftyp` box parses to an object whose only member is
      that box's decoded fields. */
  lemma FtypOnlyFile(typeBytes: seq<byte>, payload: seq<byte>)
    requires |typeBytes| == 4 && Latin1(typeBytes) == "ftyp"
    requires 0 < |payload| && |payload| + 8 < 0x1_0000_0000
    ensures var file := EncodeHeader(|payload| + 8, typeBytes) + payload;
      Walk(file, 0, |file|) == Ok(map["ftyp" := FtypBox(|file|, "ftyp", file, 0)])
  {
    var file := EncodeHeader(|payload| + 8, typeBytes) + payload;
    CompactHeaderRoundTrip(|payload| + 8, typeBytes, payload);
    var h := Header(|file|, "ftyp");
    var v := Visit(0, h, FtypBox(|file|, "ftyp", file, 0));
    assert BoxAt(file, 0) == Ok(v);
    assert Visits(file, |file|, |file|) == Ok([]);
    assert [v] + [] == [v];
    assert Visits(file, 0, |file|) == Ok([v]);
    assert [v][..0] == [];
    assert PolicyOf("ftyp") == Leaf;
    assert StoreAll(map[], [v]) == Store(map[], v) == map["ftyp" := v.value];
  }

  /** A first box whose 32-bit size is 0 or 2..7 fails the whole parse with
      `SizeError` carrying that size and type. */
  lemma SmallSizeAbortsParse(size: nat, typeBytes: seq<byte>, rest: seq<byte>)
    requires size < 8 && size != 1 && |typeBytes| == 4 && rest != []
    ensures var file := EncodeHeader(size, typeBytes) + rest;
      Walk(file, 0, |file|) == Err(SizeError(size, Latin1(typeBytes)))
  {
    var file := EncodeHeader(size, typeBytes) + rest;
    SmallSizeRejected(size, typeBytes, rest);
    assert BoxAt(file, 0) == Err(SizeError(size, Latin1(typeBytes)));
    assert Visits(file, 0, |file|) == Err(SizeError(size, Latin1(typeBytes)));
  }

  /** The children of a container are walked from 8 bytes past its start,
      even when its header is 16 bytes long: for a container with a 64-bit
      size from 17 to 2^32 - 1 (room for a child header), the first child
      header read is the high half of that size, 0, and the parse fails. */
  lemma ExtendedContainerFails(file: seq<byte>, pos: nat, h: Header)
    requires pos < |file| && HeaderAt(file, pos) == Ok(h) && Size32(file, pos) == 1
    requires PolicyOf(h.boxType) == Container && 16 < h.size < 0x1_0000_0000
    ensures EntryValue(file, pos, h) == Err(SizeError(0, TypeAt(file, pos + 8)))
  {
    HighHalfZero(file, pos + 8, h.size);
    assert Visits(file, pos + 8, pos + h.size) == Err(SizeError(0, TypeAt(file, pos + 8)));
  }

  /** A `uuid` box with a 64-bit size is keyed, like every decoder's
      fields, from 8 bytes past its start: the key is made of the 8 bytes of
      the 64-bit size and the first half of the real identifier. */
  lemma ExtendedUuidKey(size: nat, typeBytes: seq<byte>, id: seq<byte>, rest: seq<byte>)
    requires |typeBytes| == 4 && |id| == 16
    ensures UuidKey(EncodeExtendedHeader(size, typeBytes) + id + rest, 0)
      == UuidString(EncodeBigEndian(size, 8) + id[..8])
  {
    var pre := EncodeBigEndian(1, 4) + typeBytes;
    var mid := EncodeBigEndian(size, 8) + id[..8];
    var post := id[8..] + rest;
    assert EncodeExtendedHeader(size, typeBytes) + id + rest == pre + mid + post;
    ReadMiddle(pre, mid, post);
  }

  /** The first 4 of 8 bytes whose value is below 2^32 are zero. */
  lemma HighHalfZero(file: seq<byte>, p: nat, n: nat)
    requires BigEndian(Read(file, p, 8)) == n < 0x1_0000_0000
    ensures Size32(file, p) == 0
  {
    var s := Read(file, p, 8);
    ReadPrefix(file, p, 8, 4);
    assert s == s[..4] + s[4..];
    BigEndianAppend(s[..4], s[4..]);
    assert Pow256(4) == 0x1_0000_0000;
  }
}

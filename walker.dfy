/** The box tree walker. `ParseBox` reads the headers of the sibling boxes
    of a byte range one after the other, advancing by each box's declared
    size, and stores each box in a JavaScript object keyed by its type:
    containers and `trak` boxes are walked recursively, `uuid` boxes are
    walked and filed under their identifier, and every other box goes to
    its field decoder.

    The walk is specified by `Visits`, the list of boxes it meets at one
    level together with the value each produces, and by `StoreAll`, which
    files those values into the object. */
module BoxWalker {
  import opened Bytes
  import opened Values
  import opened BoxHeader
  import opened FieldDecoders

  /** `hasChildBoxes`: boxes whose payload is a sequence of boxes. */
  const HasChildBoxes: set<string> := {"moov", "edts", "mdia", "minf", "dinf", "stbl", "udta"}

  /** `existsBothBoxes`: container boxes that may repeat at one level and
      are collected into an array. */
  const ExistsBothBoxes: set<string> := {"trak"}

  /** How a box is parsed and stored, decided by its type in this order. */
  datatype Policy = Container | Repeated | Keyed | Leaf

  function PolicyOf(boxType: string): Policy
  {
    if boxType in HasChildBoxes then Container
    else if boxType in ExistsBothBoxes then Repeated
    else if boxType == "uuid" then Keyed
    else Leaf
  }

  /** A box met by the walk: where it starts, its header and the value it
      produced (for a `uuid` box, the one-member object keyed by its
      identifier). */
  datatype Visit = Visit(pos: nat, header: Header, value: Value)

  /** Files one visited box into the object of its level. */
  function Store(box: map<string, Value>, v: Visit): map<string, Value>
  {
    var t := v.header.boxType;
    match PolicyOf(t)
    case Repeated => box[t := Arr((if t in box then ItemsOf(box[t]) else []) + [v.value])]
    case Keyed => box[t := Obj((if t in box then FieldsOf(box[t]) else map[]) + FieldsOf(v.value))]
    case _ => box[t := v.value]
  }

  /** Files the visited boxes in order. */
  function StoreAll(box: map<string, Value>, vs: seq<Visit>): map<string, Value>
  {
    if vs == [] then box else Store(StoreAll(box, vs[..|vs| - 1]), vs[|vs| - 1])
  }

  /** The visits of a walk that already met the boxes `done`. */
  function Prepend(done: seq<Visit>, r: Result<seq<Visit>>): Result<seq<Visit>>
  {
    match r
    case Ok(vs) => Ok(done + vs)
    case Err(e) => Err(e)
  }

  /** The box at `pos` with the value it produces, or the failure met
      reading it: a bad header, a failing decoder or child, or a size of 0
      (which would leave the cursor where it is). */
  function BoxAt(file: seq<byte>, pos: nat): (r: Result<Visit>)
    ensures r.Ok? ==> r.value.pos == pos && pos < |file| && r.value.header.size >= 1
    decreases |file| + 24 - pos, 1
  {
    match HeaderAt(file, pos)
    case Err(e) => Err(e)
    case Ok(h) => Visited(pos, h, EntryValue(file, pos, h))
  }

  /** A box whose header `h` was read at `pos` and whose entry produced
      `entry`: the failure of the entry, the refusal of a size of 0, or the
      visit. */
  function Visited(pos: nat, h: Header, entry: Result<Value>): (r: Result<Visit>)
    ensures r.Ok? <==> entry.Ok? && h.size != 0
    ensures r.Ok? ==> r.value == Visit(pos, h, entry.value)
  {
    match entry
    case Err(e) => Err(e)
    case Ok(v) => if h.size == 0 then Err(NoProgress(pos, h.boxType)) else Ok(Visit(pos, h, v))
  }

  /** The boxes met from `pos` while `pos + 8 < end`, in order, with the
      value of each; the first failure met, depth first, ends the walk. */
  function Visits(file: seq<byte>, pos: nat, end: nat): Result<seq<Visit>>
    decreases |file| + 24 - pos, 2
  {
    if pos + 8 >= end then Ok([])
    else
      match BoxAt(file, pos)
      case Err(e) => Err(e)
      case Ok(v) => Prepend([v], Visits(file, pos + v.header.size, end))
  }

  /** The value one box produces. Children of containers, `trak` and `uuid`
      boxes are walked from 8 bytes (24 for `uuid`) past the start of the
      box, even when the header is 16 bytes long. */
  function EntryValue(file: seq<byte>, pos: nat, h: Header): Result<Value>
    requires pos < |file|
    decreases |file| + 24 - pos, 0
  {
    match PolicyOf(h.boxType)
    case Container =>
      (match Walk(file, pos + 8, pos + h.size)
       case Err(e) => Err(e)
       case Ok(children) => Ok(Obj(SizeType(h.size, h.boxType) + children)))
    case Repeated =>
      (match Walk(file, pos + 8, pos + h.size)
       case Err(e) => Err(e)
       case Ok(children) => Ok(Obj(SizeType(h.size, h.boxType) + children)))
    case Keyed =>
      (match Walk(file, pos + 8 + 16, pos + h.size)
       case Err(e) => Err(e)
       case Ok(children) =>
         Ok(Obj(map[UuidKey(file, pos) := Obj(SizeType(h.size, h.boxType) + children)])))
    case Leaf => LeafBox(h.size, h.boxType, file, pos)
  }

  /** The object the walk of `[start, end)` returns. */
  function Walk(file: seq<byte>, start: nat, end: nat): Result<map<string, Value>>
    decreases |file| + 24 - start, 3
  {
    match Visits(file, start, end)
    case Ok(vs) => Ok(StoreAll(map[], vs))
    case Err(e) => Err(e)
  }

  /** `parseBox`: the loop over the boxes of `[start, end)`. Each box is
      read by `ReadBox` and filed under its type. */
  method ParseBox(file: seq<byte>, start: nat, end: nat) returns (r: Result<map<string, Value>>)
    ensures r == Walk(file, start, end)
    decreases |file| + 24 - start, 3
  {
    var box: map<string, Value> := map[];
    var position := start;
    ghost var done: seq<Visit> := [];
    ghost var all := Visits(file, start, end);
    PrependNone(all);
    while position + 8 < end
      invariant start <= position
      invariant position == start || start < |file|
      invariant box == StoreAll(map[], done)
      invariant all == Prepend(done, Visits(file, position, end))
      decreases |file| - position
    {
      var next := ReadBox(file, position);
      if next.Err? {
        assert all == Err(next.error);
        return Err(next.error);
      }
      box := StoreBox(box, next.value);
      WalkAdvances(file, position, end, next.value, done, all);
      StoreAllSnoc(done, next.value);
      done := done + [next.value];
      position := position + next.value.header.size;
    }
    assert done + [] == done;
    return Ok(box);
  }

  /** The store at the end of one iteration of `parseBox`: a `trak` box is
      appended to the array of its type, a `uuid` box's member is merged
      into the object of its type, and any other box replaces what its type
      held. */
  method StoreBox(box: map<string, Value>, v: Visit) returns (stored: map<string, Value>)
    ensures stored == Store(box, v)
  {
    var t, value := v.header.boxType, v.value;
    if t in HasChildBoxes {
      stored := box[t := value];
    } else if t in ExistsBothBoxes {
      var items := if t in box then ItemsOf(box[t]) else [];
      stored := box[t := Arr(items + [value])];
    } else if t == "uuid" {
      var known := if t in box then FieldsOf(box[t]) else map[];
      stored := box[t := Obj(known + FieldsOf(value))];
    } else {
      stored := box[t := value];
    }
  }

  /** One iteration of `parseBox` up to the store: reads the header, decodes
      the box and refuses a size of 0. */
  method ReadBox(file: seq<byte>, position: nat) returns (r: Result<Visit>)
    ensures r == BoxAt(file, position)
    decreases |file| + 24 - position, 1
  {
    var hr := ReadSizeAndType(file, position);
    if hr.Err? {
      return Err(hr.error);
    }
    var entry := ParseEntry(file, position, hr.value);
    if entry.Err? {
      return Err(entry.error);
    }
    if hr.value.size == 0 {
      return Err(NoProgress(position, hr.value.boxType));
    }
    return Ok(Visit(position, hr.value, entry.value));
  }

  /** The value of one box: a container
      or `trak` box is `{ size, type }` merged with its walked children, a
      `uuid` box is `parseBox_uuid`'s one-member object whose member is
      merged with the children walked after the identifier, and any other
      box goes to its decoder. */
  method ParseEntry(file: seq<byte>, position: nat, h: Header) returns (r: Result<Value>)
    requires position < |file|
    ensures r == EntryValue(file, position, h)
    decreases |file| + 24 - position, 0
  {
    var size, t := h.size, h.boxType;
    if t in HasChildBoxes || t in ExistsBothBoxes {
      var parsed := ParseBox(file, position + 8, position + size);
      if parsed.Err? {
        return Err(parsed.error);
      }
      return Ok(Obj(SizeType(size, t) + parsed.value));
    } else if t == "uuid" {
      var uuidBox := ParseUuid(size, t, file, position);
      assert UuidKey(file, position) in uuidBox.fields;
      var uuid :| uuid in uuidBox.fields;
      var parsed := ParseBox(file, position + 8 + 16, position + size);
      if parsed.Err? {
        return Err(parsed.error);
      }
      return Ok(Obj(map[uuid := Obj(FieldsOf(uuidBox.fields[uuid]) + parsed.value)]));
    } else {
      r := ParseLeaf(size, t, file, position);
    }
  }

  /** The loop's account of the walk still holds after one more box. */
  lemma WalkAdvances(file: seq<byte>, pos: nat, end: nat, v: Visit, done: seq<Visit>, all: Result<seq<Visit>>)
    requires pos + 8 < end && BoxAt(file, pos) == Ok(v)
    requires all == Prepend(done, Visits(file, pos, end))
    ensures all == Prepend(done + [v], Visits(file, pos + v.header.size, end))
  {
    PrependTwice(done, v, Visits(file, pos + v.header.size, end));
  }

  lemma StoreAllSnoc(done: seq<Visit>, v: Visit)
    ensures StoreAll(map[], done + [v]) == Store(StoreAll(map[], done), v)
  {
    assert (done + [v])[..|done|] == done;
  }

  lemma PrependNone(r: Result<seq<Visit>>)
    ensures Prepend([], r) == r
  {
    if r.Ok? {
      assert [] + r.value == r.value;
    }
  }

  lemma PrependTwice(done: seq<Visit>, v: Visit, r: Result<seq<Visit>>)
    ensures Prepend(done, Prepend([v], r)) == Prepend(done + [v], r)
  {
    if r.Ok? {
      assert done + ([v] + r.value) == (done + [v]) + r.value;
    }
  }
}

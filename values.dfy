/** The shape of what the parser produces: plain JavaScript objects whose
    members are numbers, strings, arrays or further objects, and the ways a
    parse can fail. */
module Values {

  /** A JavaScript value as the parser builds it. An object is a map from
      member name to value; member order is not modelled. */
  datatype Value =
    | Num(n: nat)
    | Str(s: string)
    | Arr(items: seq<Value>)
    | Obj(fields: map<string, Value>)

  /** What makes a parse stop without a tree. */
  datatype Error =
      /** `_readSizeAndType` throws for a 32-bit size of 0 or 2..7. */
    | SizeError(size: nat, boxType: string)
      /** `Buffer.alloc` throws for a negative length: an `hdlr` box shorter
          than its fixed 32-byte prefix, or one of exactly 32 bytes whose
          name field starts more than one byte past the end of the file
          (the read-to-end length is then negative). */
    | NegativeLength(length: int, boxType: string)
      /** A box whose 64-bit size is 0: the walk would read the same box
          forever, since the cursor does not move. */
    | NoProgress(position: nat, boxType: string)
      /** A box of type `xxxx`: its decoder lookup finds `parseBox_xxxx`
          itself, which calls itself until the call stack is exhausted. */
    | CallStackExhausted(boxType: string)

  datatype Result<T> = Ok(value: T) | Err(error: Error)

  /** The `{ size: size, type: type }` object every box starts from. */
  function SizeType(size: nat, boxType: string): map<string, Value>
  {
    map["size" := Num(size), "type" := Str(boxType)]
  }

  /** The members of an object value (none for any other value). */
  function FieldsOf(v: Value): map<string, Value>
  {
    if v.Obj? then v.fields else map[]
  }

  /** The elements of an array value (none for any other value). */
  function ItemsOf(v: Value): seq<Value>
  {
    if v.Arr? then v.items else []
  }
}

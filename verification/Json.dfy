/** The value a json_object tree stands for. */
module Json {
  import opened Bytes

  // A NULL json_object pointer is the JSON null. Doubles are known by the text they carry.
  datatype Json =
    | Null
    | Bool(b: bool)
    | Int(i: int)
    | Double(text: Text)
    | Infinite(negative: bool)
    | NotANumber
    | Str(bytes: Text)
    | Arr(elems: seq<Json>)
    | Obj(fields: seq<Field>)

  datatype Field = Field(key: Text, val: Json)

  predicate HasKey(fields: seq<Field>, key: Text) {
    exists i :: 0 <= i < |fields| && fields[i].key == key
  }

  /** json_object_object_add on the ordered list of members: an existing key keeps its place. */
  function ObjectAdd(fields: seq<Field>, key: Text, val: Json): seq<Field> {
    if fields == [] then [Field(key, val)]
    else if fields[0].key == key then [Field(key, val)] + fields[1..]
    else [fields[0]] + ObjectAdd(fields[1..], key, val)
  }

  lemma {:induction false} ObjectAddAbsent(fields: seq<Field>, key: Text, val: Json)
    requires !HasKey(fields, key)
    ensures ObjectAdd(fields, key, val) == fields + [Field(key, val)]
  {
    if fields == [] {
    } else {
      assert fields[0].key != key;
      assert forall i :: 0 <= i < |fields[1..]| ==> fields[1..][i] == fields[i + 1];
      ObjectAddAbsent(fields[1..], key, val);
      assert fields == [fields[0]] + fields[1..];
    }
  }

  /** Nesting: a scalar or an empty container is 0, a non-empty container one more than its tallest child. */
  function Height(v: Json): nat {
    match v
    case Arr(elems) => if elems == [] then 0 else 1 + ElemsHeight(elems)
    case Obj(fields) => if fields == [] then 0 else 1 + FieldsHeight(fields)
    case _ => 0
  }

  function ElemsHeight(elems: seq<Json>): nat {
    if elems == [] then 0
    else var rest := ElemsHeight(elems[1..]); if Height(elems[0]) > rest then Height(elems[0]) else rest
  }

  function FieldsHeight(fields: seq<Field>): nat {
    if fields == [] then 0
    else var rest := FieldsHeight(fields[1..]); if Height(fields[0].val) > rest then Height(fields[0].val) else rest
  }
}

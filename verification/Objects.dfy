/** The members of a JSON object in the tokener and in its hash table. */
module Objects {
  import opened Bytes
  import opened Json
  import LinkHash

  /** The members that the pairs of a table stand for. */
  function FieldsOf(items: seq<(Text, Json)>): (fields: seq<Field>)
    ensures |fields| == |items| && forall i :: 0 <= i < |items| ==> fields[i] == Field(items[i].0, items[i].1)
  {
    if items == [] then [] else [Field(items[0].0, items[0].1)] + FieldsOf(items[1..])
  }

  /** What the tokener adds to an object is what lookup, insertion and replacement do to its table. */
  lemma {:induction false} ObjectAddIsUpdate(items: seq<(Text, Json)>, key: Text, val: Json)
    ensures ObjectAdd(FieldsOf(items), key, val) == FieldsOf(LinkHash.Updated(items, key, val))
  {
    if items == [] {
    } else {
      var fields := FieldsOf(items);
      assert fields[1..] == FieldsOf(items[1..]);
      ObjectAddIsUpdate(items[1..], key, val);
    }
  }
}

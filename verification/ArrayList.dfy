/** arraylist.c: the growing array behind a JSON array. */
module ArrayList {
  import opened RefCount

  const ARRAY_LIST_DEFAULT_SIZE: nat := 32

  class ArrayList {
    var arr: array<Ptr>
    var length: nat
    var size: nat

    /** What is behind the length is zero. */
    ghost predicate Valid()
      reads this, arr
    {
      && arr.Length == size > 0 && length <= size
      && forall i :: length <= i < size ==> arr[i] == Ptr.Null
    }

    ghost function Items(): seq<Ptr>
      reads this, arr
      requires Valid()
    {
      arr[..length]
    }

    /** array_list_new */
    constructor ()
      ensures Valid() && Items() == [] && size == ARRAY_LIST_DEFAULT_SIZE && fresh(arr)
    {
      arr := new Ptr[ARRAY_LIST_DEFAULT_SIZE](_ => Ptr.Null);
      length, size := 0, ARRAY_LIST_DEFAULT_SIZE;
    }

    /** array_list_get_idx, for an index that is not negative */
    method GetIdx(i: nat) returns (p: Ptr)
      requires Valid()
      ensures p == if i < |Items()| then Items()[i] else Ptr.Null
    {
      if i >= length {
        return Ptr.Null;
      }
      return arr[i];
    }

    /** array_list_expand_internal: room for more than `max` entries, the new ones zero. */
    method Expand(max: nat)
      requires Valid()
      modifies this
      ensures Valid() && Items() == old(Items()) && length == old(length)
      ensures size >= max && old(size) <= size && (arr == old(arr) || fresh(arr))
      ensures if max < old(size) then size == old(size) else size == if 2 * old(size) < max then max else 2 * old(size)
    {
      if max < size {
        return;
      }
      var newSize := size * 2;
      if newSize < max {
        newSize := max;
      }
      var t := new Ptr[newSize](i requires 0 <= i reads this, arr => if i < arr.Length then arr[i] else Ptr.Null);
      arr := t;
      size := newSize;
    }

    /** array_list_put_idx: the entry that was there goes to free_fn, if it is not NULL. */
    method PutIdx(idx: nat, data: Ptr) returns (freed: Ptr)
      requires Valid()
      modifies this, arr
      ensures Valid() && Items() == Placed(old(Items()), idx, data) && (arr == old(arr) || fresh(arr))
      ensures freed == if idx < |old(Items())| then old(Items())[idx] else Ptr.Null
    {
      ghost var items := Items();
      Expand(idx + 1);
      freed := arr[idx];
      arr[idx] := data;
      if length <= idx {
        length := idx + 1;
      }
      assert forall i :: 0 <= i < length ==> arr[..length][i] == Placed(items, idx, data)[i];
    }

    /** array_list_add */
    method Add(data: Ptr)
      requires Valid()
      modifies this, arr
      ensures Valid() && Items() == old(Items()) + [data] && (arr == old(arr) || fresh(arr))
    {
      ghost var items := Items();
      var _ := PutIdx(length, data);
      assert Placed(items, |items|, data) == items + [data];
    }

    /** array_list_free: what is given to free_fn, in order. */
    method Free() returns (freed: seq<nat>)
      requires Valid()
      ensures freed == Addresses(Items()) && multiset(freed) == Targets(Items())
    {
      freed := [];
      var i := 0;
      while i < length
        invariant i <= length && freed == Addresses(arr[..i]) && multiset(freed) == Targets(arr[..i])
      {
        AddressesOn(arr[..i], arr[i]);
        TargetsOn(arr[..i], arr[i]);
        assert arr[..i + 1] == arr[..i] + [arr[i]];
        if arr[i].To? {
          freed := freed + [arr[i].at];
        }
        i := i + 1;
      }
    }
  }

  /** The entries that are not NULL. */
  function Addresses(ps: seq<Ptr>): seq<nat> {
    if ps == [] then [] else (if ps[0].To? then [ps[0].at] else []) + Addresses(ps[1..])
  }

  lemma {:induction false} AddressesOn(ps: seq<Ptr>, p: Ptr)
    ensures Addresses(ps + [p]) == Addresses(ps) + if p.To? then [p.at] else []
  {
    if ps == [] {
      assert [p][1..] == [] && ps + [p] == [p];
    } else {
      assert (ps + [p])[1..] == ps[1..] + [p];
      AddressesOn(ps[1..], p);
      var x, y: seq<nat> := if ps[0].To? then [ps[0].at] else [], if p.To? then [p.at] else [];
      var rest := Addresses(ps[1..]);
      assert Addresses(ps + [p]) == x + (rest + y) && Addresses(ps) == x + rest;
      assert x + (rest + y) == x + rest + y;
    }
  }

  lemma TargetsOn(ps: seq<Ptr>, p: Ptr)
    ensures Targets(ps + [p]) == Targets(ps) + One(p)
  {
    hide Targets, One;
    TargetsConcat(ps, [p]);
    OneTarget(p);
  }
}

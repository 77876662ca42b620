/**
 linkhash.c: open addressing with tombstones, a doubly linked list threaded through the slots in
 insertion order, and doubling. The table refines a list of pairs with distinct keys.
 */
module LinkHash {
  import opened Bytes

  // A slot with the key LH_EMPTY, one with LH_FREED, or a live one.
  datatype Slot<K, V> = Empty | Freed | Live(k: K, v: V)

  // struct lh_entry; NIL is the NULL pointer, any other link is the number of a slot.
  datatype Entry<K, V> = Entry(slot: Slot<K, V>, next: int, prev: int)

  const NIL: int := -1

  // ---------------------------------------------------------------- the list of pairs

  predicate Has<K(==), V>(items: seq<(K, V)>, k: K) {
    exists i :: 0 <= i < |items| && items[i].0 == k
  }

  function Find<K(==), V>(items: seq<(K, V)>, k: K): Option<V> {
    if items == [] then None else if items[0].0 == k then Some(items[0].1) else Find(items[1..], k)
  }

  function Without<K(==), V>(items: seq<(K, V)>, k: K): seq<(K, V)> {
    if items == [] then [] else if items[0].0 == k then items[1..] else [items[0]] + Without(items[1..], k)
  }

  /** The value of a key is replaced in its place, or the pair is new and comes last. */
  function Updated<K(==), V>(items: seq<(K, V)>, k: K, v: V): seq<(K, V)> {
    if items == [] then [(k, v)]
    else if items[0].0 == k then [(k, v)] + items[1..]
    else [items[0]] + Updated(items[1..], k, v)
  }

  /** The list is a map: what an update and a removal change, and what they leave. */
  lemma {:induction false} UpdatedFinds<K, V>(items: seq<(K, V)>, k: K, v: V, q: K)
    ensures Find(Updated(items, k, v), q) == if q == k then Some(v) else Find(items, q)
  {
    if items == [] || items[0].0 == k {
    } else {
      UpdatedFinds(items[1..], k, v, q);
    }
  }

  lemma {:induction false} WithoutFinds<K, V>(items: seq<(K, V)>, k: K, q: K)
    requires Distinct(items)
    ensures Find(Without(items, k), q) == if q == k then None else Find(items, q)
  {
    if items == [] {
    } else if items[0].0 == k {
      assert !Has(items[1..], k);
      FindNone(items[1..], k);
    } else {
      WithoutFinds(items[1..], k, q);
    }
  }

  predicate Distinct<K(==), V>(items: seq<(K, V)>) {
    forall i, j :: 0 <= i < j < |items| ==> items[i].0 != items[j].0
  }

  // ---------------------------------------------------------------- the slots

  /** How many steps the probe takes from slot h to slot m, going round at the end. */
  function Off(h: nat, m: nat, size: nat): int {
    if m >= h then m - h else m - h + size
  }

  /** The next slot of a probe. */
  function Following(n: nat, size: nat): nat {
    if n + 1 == size then 0 else n + 1
  }

  function At(order: seq<nat>, i: int): int {
    if 0 <= i < |order| then order[i] else NIL
  }

  /** The live slots, and only they, are in the list, each once. */
  ghost predicate Listed<K, V>(s: seq<Entry<K, V>>, order: seq<nat>) {
    && InRange(order, |s|) && (forall i :: 0 <= i < |order| ==> s[order[i]].slot.Live?)
    && (forall i, j :: 0 <= i < j < |order| ==> order[i] != order[j])
    && (forall n :: 0 <= n < |s| && s[n].slot.Live? ==> n in order)
  }

  ghost predicate InRange(order: seq<nat>, size: nat) {
    forall i :: 0 <= i < |order| ==> order[i] < size
  }

  ghost predicate Forward<K, V>(s: seq<Entry<K, V>>, order: seq<nat>)
    requires InRange(order, |s|)
  {
    forall i :: 0 <= i < |order| ==> s[order[i]].next == At(order, i + 1)
  }

  ghost predicate Backward<K, V>(s: seq<Entry<K, V>>, order: seq<nat>)
    requires InRange(order, |s|)
  {
    forall i :: 0 <= i < |order| ==> s[order[i]].prev == At(order, i - 1)
  }

  /** The links follow the list in both directions. */
  ghost predicate Linked<K, V>(s: seq<Entry<K, V>>, order: seq<nat>, head: int, tail: int)
    requires InRange(order, |s|)
  {
    head == At(order, 0) && tail == At(order, |order| - 1) && Forward(s, order) && Backward(s, order)
  }

  /** From the home slot of a live key to its slot no slot is empty. */
  ghost predicate Probed<K(!new), V(!new)>(hash: K -> nat, s: seq<Entry<K, V>>)
    requires s != []
  {
    forall n, m :: 0 <= n < |s| && 0 <= m < |s| && s[n].slot.Live?
        && Off(hash(s[n].slot.k) % |s|, m, |s|) < Off(hash(s[n].slot.k) % |s|, n, |s|)
      ==> !s[m].slot.Empty?
  }

  ghost predicate KeysOnce<K, V>(s: seq<Entry<K, V>>) {
    forall n, m :: 0 <= n < m < |s| && s[n].slot.Live? && s[m].slot.Live? ==> s[n].slot.k != s[m].slot.k
  }

  ghost predicate NoKey<K, V>(s: seq<Entry<K, V>>, k: K) {
    forall n :: 0 <= n < |s| && s[n].slot.Live? ==> s[n].slot.k != k
  }

  /** The pairs in the order of the list. */
  ghost function Pairs<K, V>(s: seq<Entry<K, V>>, order: seq<nat>): (items: seq<(K, V)>)
    requires forall i :: 0 <= i < |order| ==> order[i] < |s| && s[order[i]].slot.Live?
    ensures |items| == |order|
    ensures forall i :: 0 <= i < |order| ==> items[i] == (s[order[i]].slot.k, s[order[i]].slot.v)
  {
    if order == [] then []
    else [(s[order[0]].slot.k, s[order[0]].slot.v)] + Pairs(s, order[1..])
  }

  lemma PairsHas<K, V>(s: seq<Entry<K, V>>, order: seq<nat>, k: K)
    requires Listed(s, order)
    ensures NoKey(s, k) <==> !Has(Pairs(s, order), k)
  {
    if Has(Pairs(s, order), k) {
      var i :| 0 <= i < |order| && Pairs(s, order)[i].0 == k;
      assert s[order[i]].slot.k == k;
    } else {
      forall n | 0 <= n < |s| && s[n].slot.Live?
        ensures s[n].slot.k != k
      {
        var i :| 0 <= i < |order| && order[i] == n;
        assert Pairs(s, order)[i].0 != k;
      }
    }
  }

  lemma PairsDistinct<K, V>(s: seq<Entry<K, V>>, order: seq<nat>)
    requires Listed(s, order) && KeysOnce(s)
    ensures Distinct(Pairs(s, order))
  {
    var items := Pairs(s, order);
    forall i, j | 0 <= i < j < |items|
      ensures items[i].0 != items[j].0
    {
      assert order[i] != order[j];
      assert items[i].0 == s[order[i]].slot.k && items[j].0 == s[order[j]].slot.k;
    }
  }

  lemma {:induction false} FindAt<K, V>(items: seq<(K, V)>, i: nat)
    requires Distinct(items) && i < |items|
    ensures Find(items, items[i].0) == Some(items[i].1)
    ensures Without(items, items[i].0) == items[..i] + items[i + 1..]
  {
    if i == 0 {
    } else {
      assert items[0].0 != items[i].0;
      FindAt(items[1..], i - 1);
      assert items == [items[0]] + items[1..];
    }
  }

  lemma {:induction false} UpdatedAt<K, V>(items: seq<(K, V)>, i: nat, v: V)
    requires Distinct(items) && i < |items|
    ensures Updated(items, items[i].0, v) == items[i := (items[i].0, v)]
  {
    if i == 0 {
    } else {
      assert items[0].0 != items[i].0;
      UpdatedAt(items[1..], i - 1, v);
      assert items == [items[0]] + items[1..];
    }
  }

  lemma {:induction false} UpdatedNone<K, V>(items: seq<(K, V)>, k: K, v: V)
    requires !Has(items, k)
    ensures Updated(items, k, v) == items + [(k, v)]
  {
    if items == [] {
    } else {
      assert items[0].0 != k;
      assert forall i :: 0 <= i < |items[1..]| ==> items[1..][i] == items[i + 1];
      UpdatedNone(items[1..], k, v);
      assert items == [items[0]] + items[1..];
    }
  }

  lemma {:induction false} FindNone<K, V>(items: seq<(K, V)>, k: K)
    requires !Has(items, k)
    ensures Find(items, k) == None && Without(items, k) == items
  {
    if items == [] {
    } else {
      assert items[0].0 != k;
      assert forall i :: 0 <= i < |items[1..]| ==> items[1..][i] == items[i + 1];
      FindNone(items[1..], k);
    }
  }

  // ---------------------------------------------------------------- counting

  ghost function Below(n: nat): (r: set<nat>)
    ensures |r| == n && forall m :: m in r <==> 0 <= m < n
  {
    if n == 0 then {} else Below(n - 1) + {n - 1}
  }

  ghost function Elements(order: seq<nat>): (r: set<nat>)
    ensures forall m :: m in r <==> m in order
    ensures (forall i, j :: 0 <= i < j < |order| ==> order[i] != order[j]) ==> |r| == |order|
  {
    if order == [] then {}
    else
      assert forall i :: 0 <= i < |order[1..]| ==> order[1..][i] == order[i + 1];
      {order[0]} + Elements(order[1..])
  }

  lemma {:induction false} SubsetSize<T>(a: set<T>, b: set<T>)
    requires a <= b
    ensures |a| <= |b|
  {
    if a == {} {
    } else {
      var x :| x in a;
      SubsetSize(a - {x}, b - {x});
    }
  }

  /** With fewer live slots than slots some slot is not live. */
  lemma FreeSlot<K, V>(s: seq<Entry<K, V>>, order: seq<nat>) returns (n: nat)
    requires Listed(s, order) && |order| < |s|
    ensures n < |s| && !s[n].slot.Live?
  {
    if m :| 0 <= m < |s| && !s[m].slot.Live? {
      n := m;
    } else {
      assert Below(|s|) <= Elements(order);
      SubsetSize(Below(|s|), Elements(order));
      assert false;
    }
  }

  // ---------------------------------------------------------------- insertion and deletion on slots

  /** A pair is put into a slot that is not live, behind the tail of the list. */
  function Inserted<K, V>(s: seq<Entry<K, V>>, tail: int, n: nat, k: K, v: V): (r: seq<Entry<K, V>>)
    requires n < |s| && (tail == NIL || 0 <= tail < |s|)
    ensures |r| == |s|
  {
    (if tail == NIL then s else s[tail := s[tail].(next := n)])[n := Entry(Live(k, v), NIL, tail)]
  }

  /** A slot becomes live, the others keep their pairs. */
  ghost predicate Filling<K, V>(s: seq<Entry<K, V>>, r: seq<Entry<K, V>>, n: nat, k: K, v: V) {
    && n < |s| == |r| && !s[n].slot.Live? && r[n].slot == Live(k, v)
    && forall m :: 0 <= m < |s| && m != n ==> r[m].slot == s[m].slot
  }

  lemma InsertListed<K, V>(s: seq<Entry<K, V>>, r: seq<Entry<K, V>>, order: seq<nat>, n: nat, k: K, v: V)
    requires Listed(s, order) && Filling(s, r, n, k, v)
    ensures Listed(r, order + [n])
  {
    var o := order + [n];
    assert forall i :: 0 <= i < |order| ==> o[i] == order[i] && order[i] != n;
    forall m | 0 <= m < |r| && r[m].slot.Live?
      ensures m in o
    {
      if m != n {
        assert m in order;
      } else {
        assert o[|order|] == n;
      }
    }
  }

  lemma InsertPairs<K, V>(s: seq<Entry<K, V>>, r: seq<Entry<K, V>>, order: seq<nat>, n: nat, k: K, v: V)
    requires Listed(s, order) && Filling(s, r, n, k, v) && Listed(r, order + [n])
    ensures Pairs(r, order + [n]) == Pairs(s, order) + [(k, v)]
  {
    hide Pairs;
    var o, items := order + [n], Pairs(s, order);
    assert forall i :: 0 <= i < |order| ==> o[i] == order[i] && order[i] != n;
    assert forall i :: 0 <= i < |o| ==> Pairs(r, o)[i] == (items + [(k, v)])[i];
  }

  /** What an insertion does to the links of the list. */
  lemma InsertForward<K, V>(s: seq<Entry<K, V>>, r: seq<Entry<K, V>>, order: seq<nat>, n: nat)
    requires InRange(order, |s|) && |r| == |s| && n < |s| && Forward(s, order)
    requires forall i :: 0 <= i < |order| - 1 ==> r[order[i]].next == s[order[i]].next
    requires order != [] ==> r[order[|order| - 1]].next == n
    requires r[n].next == NIL
    ensures InRange(order + [n], |r|) && Forward(r, order + [n])
  {
  }

  lemma InsertBackward<K, V>(s: seq<Entry<K, V>>, r: seq<Entry<K, V>>, order: seq<nat>, n: nat)
    requires InRange(order, |s|) && |r| == |s| && n < |s| && Backward(s, order)
    requires forall i :: 0 <= i < |order| ==> r[order[i]].prev == s[order[i]].prev
    requires r[n].prev == At(order, |order| - 1)
    ensures InRange(order + [n], |r|) && Backward(r, order + [n])
  {
  }

  lemma InsertLinked<K, V>(s: seq<Entry<K, V>>, order: seq<nat>, head: int, tail: int, n: nat, k: K, v: V)
    requires Listed(s, order) && Linked(s, order, head, tail) && n < |s| && !s[n].slot.Live?
    ensures InRange(order + [n], |s|)
    ensures Linked(Inserted(s, tail, n, k, v), order + [n], if head == NIL then n else head, n)
  {
    hide Forward, Backward;
    var r := Inserted(s, tail, n, k, v);
    InsertForward(s, r, order, n);
    InsertBackward(s, r, order, n);
  }

  lemma InsertProbed<K(!new), V(!new)>(hash: K -> nat, s: seq<Entry<K, V>>, tail: int, n: nat, k: K, v: V)
    requires n < |s| && !s[n].slot.Live? && (tail == NIL || (0 <= tail < |s| && s[tail].slot.Live?))
    requires Probed(hash, s) && KeysOnce(s) && NoKey(s, k)
    requires var h := hash(k) % |s|; forall m :: 0 <= m < |s| && Off(h, m, |s|) < Off(h, n, |s|) ==> s[m].slot.Live?
    ensures Probed(hash, Inserted(s, tail, n, k, v)) && KeysOnce(Inserted(s, tail, n, k, v))
  {
    hide Off;
    var r := Inserted(s, tail, n, k, v);
    assert forall m :: 0 <= m < |s| && m != n ==> r[m].slot == s[m].slot;
  }

  /** A live slot becomes a tombstone, and its neighbours in the list are joined. */
  function Deleted<K, V>(s: seq<Entry<K, V>>, n: nat): (r: seq<Entry<K, V>>)
    requires n < |s|
    requires s[n].prev == NIL || 0 <= s[n].prev < |s|
    requires s[n].next == NIL || 0 <= s[n].next < |s|
    ensures |r| == |s|
  {
    var p, q := s[n].prev, s[n].next;
    var s1 := if p == NIL then s else s[p := s[p].(next := q)];
    var s2 := if q == NIL then s1 else s1[q := s1[q].(prev := p)];
    s2[n := Entry(Freed, NIL, NIL)]
  }

  /** The links of a slot, next to the ends of the list. */
  predicate Neighbours<K, V>(s: seq<Entry<K, V>>, head: int, tail: int, n: nat)
    requires n < |s|
  {
    var p, q := s[n].prev, s[n].next;
    && (if head == n then p == NIL else 0 <= p < |s| && p != n)
    && (if tail == n then q == NIL else 0 <= q < |s| && q != n)
    && (head != n && tail != n ==> p != q)
  }

  /** The list without its i-th slot. */
  function Skipped(order: seq<nat>, i: nat): (o: seq<nat>)
    requires i < |order|
    ensures |o| == |order| - 1 && forall j :: 0 <= j < |o| ==> o[j] == order[if j < i then j else j + 1]
  {
    order[..i] + order[i + 1..]
  }

  lemma SkippedHas(order: seq<nat>, i: nat, m: nat)
    requires i < |order| && m in order && m != order[i]
    ensures m in Skipped(order, i)
  {
    var j :| 0 <= j < |order| && order[j] == m;
    assert Skipped(order, i)[if j < i then j else j - 1] == m;
  }

  /** One slot becomes a tombstone, the others keep their pairs. */
  ghost predicate Freeing<K, V>(s: seq<Entry<K, V>>, r: seq<Entry<K, V>>, n: nat) {
    && n < |s| == |r| && r[n].slot == Freed
    && forall m :: 0 <= m < |s| && m != n ==> r[m].slot == s[m].slot
  }

  lemma DeleteFrees<K, V>(s: seq<Entry<K, V>>, n: nat)
    requires n < |s|
    requires s[n].prev == NIL || 0 <= s[n].prev < |s|
    requires s[n].next == NIL || 0 <= s[n].next < |s|
    ensures Freeing(s, Deleted(s, n), n)
  {
  }

  lemma DeleteListed<K, V>(s: seq<Entry<K, V>>, r: seq<Entry<K, V>>, order: seq<nat>, i: nat)
    requires Listed(s, order) && i < |order| && Freeing(s, r, order[i])
    ensures Listed(r, Skipped(order, i))
  {
    var o := Skipped(order, i);
    hide Skipped;
    assert forall j :: 0 <= j < |o| ==> o[j] != order[i];
    forall m | 0 <= m < |r| && r[m].slot.Live?
      ensures m in o
    {
      SkippedHas(order, i, m);
    }
  }

  lemma DeletePairs<K, V>(s: seq<Entry<K, V>>, r: seq<Entry<K, V>>, order: seq<nat>, i: nat)
    requires Listed(s, order) && i < |order| && Freeing(s, r, order[i]) && Listed(r, Skipped(order, i))
    ensures Pairs(r, Skipped(order, i)) == Pairs(s, order)[..i] + Pairs(s, order)[i + 1..]
  {
    var o := Skipped(order, i);
    forall j | 0 <= j < |o|
      ensures Pairs(r, o)[j] == Pairs(s, order)[if j < i then j else j + 1]
    {
      var j' := if j < i then j else j + 1;
      assert o[j] == order[j'] && order[j'] != order[i];
    }
    OneOut(Pairs(s, order), Pairs(r, o), i);
  }

  lemma OneOut<T>(all: seq<T>, some: seq<T>, i: nat)
    requires i < |all| == |some| + 1
    requires forall j :: 0 <= j < |some| ==> some[j] == all[if j < i then j else j + 1]
    ensures some == all[..i] + all[i + 1..]
  {
  }

  lemma DeleteForward<K, V>(s: seq<Entry<K, V>>, r: seq<Entry<K, V>>, order: seq<nat>, i: nat)
    requires InRange(order, |s|) && |r| == |s| && i < |order| && Forward(s, order)
    requires forall j :: 0 <= j < |order| && j != i && j != i - 1 ==> r[order[j]].next == s[order[j]].next
    requires i > 0 ==> r[order[i - 1]].next == s[order[i]].next
    ensures InRange(Skipped(order, i), |r|) && Forward(r, Skipped(order, i))
  {
    var o := Skipped(order, i);
    hide Skipped;
    forall j | 0 <= j < |o|
      ensures r[o[j]].next == At(o, j + 1)
    {
      var j' := if j < i then j else j + 1;
      assert o[j] == order[j'] && s[order[j']].next == At(order, j' + 1);
    }
  }

  lemma DeleteBackward<K, V>(s: seq<Entry<K, V>>, r: seq<Entry<K, V>>, order: seq<nat>, i: nat)
    requires InRange(order, |s|) && |r| == |s| && i < |order| && Backward(s, order)
    requires forall j :: 0 <= j < |order| && j != i && j != i + 1 ==> r[order[j]].prev == s[order[j]].prev
    requires i + 1 < |order| ==> r[order[i + 1]].prev == s[order[i]].prev
    ensures InRange(Skipped(order, i), |r|) && Backward(r, Skipped(order, i))
  {
    var o := Skipped(order, i);
    hide Skipped;
    forall j | 0 <= j < |o|
      ensures r[o[j]].prev == At(o, j - 1)
    {
      var j' := if j < i then j else j + 1;
      assert o[j] == order[j'] && s[order[j']].prev == At(order, j' - 1);
    }
  }

  lemma DeleteLinked<K, V>(s: seq<Entry<K, V>>, order: seq<nat>, head: int, tail: int, i: nat)
    requires Listed(s, order) && Linked(s, order, head, tail) && i < |order|
    requires s[order[i]].prev == NIL || 0 <= s[order[i]].prev < |s|
    requires s[order[i]].next == NIL || 0 <= s[order[i]].next < |s|
    ensures InRange(Skipped(order, i), |s|)
    ensures Linked(Deleted(s, order[i]), Skipped(order, i),
                   if head == order[i] then s[order[i]].next else head,
                   if tail == order[i] then s[order[i]].prev else tail)
  {
    LinksOf(s, order, head, tail, i);
    hide Forward, Backward, Deleted, Listed, Skipped, At;
    DeleteLinks(s, order, i);
    SkippedEnds(order, i);
    DeleteForward(s, Deleted(s, order[i]), order, i);
    DeleteBackward(s, Deleted(s, order[i]), order, i);
  }

  lemma SkippedEnds(order: seq<nat>, i: nat)
    requires i < |order|
    ensures var o := Skipped(order, i);
            && At(o, 0) == (if i == 0 then At(order, i + 1) else At(order, 0))
            && At(o, |o| - 1) == (if i == |order| - 1 then At(order, i - 1) else At(order, |order| - 1))
  {
  }

  lemma DeleteLinks<K, V>(s: seq<Entry<K, V>>, order: seq<nat>, i: nat)
    requires Listed(s, order) && i < |order|
    requires s[order[i]].prev == At(order, i - 1) && s[order[i]].next == At(order, i + 1)
    ensures var r := Deleted(s, order[i]);
            && (forall j :: 0 <= j < |order| && j != i && j != i - 1 ==> r[order[j]].next == s[order[j]].next)
            && (i > 0 ==> r[order[i - 1]].next == s[order[i]].next)
            && (forall j :: 0 <= j < |order| && j != i && j != i + 1 ==> r[order[j]].prev == s[order[j]].prev)
            && (i + 1 < |order| ==> r[order[i + 1]].prev == s[order[i]].prev)
  {
  }

  lemma DeleteProbed<K(!new), V(!new)>(hash: K -> nat, s: seq<Entry<K, V>>, n: nat)
    requires n < |s| && Probed(hash, s) && KeysOnce(s)
    requires s[n].prev == NIL || 0 <= s[n].prev < |s|
    requires s[n].next == NIL || 0 <= s[n].next < |s|
    ensures Probed(hash, Deleted(s, n)) && KeysOnce(Deleted(s, n))
  {
    hide Off;
    var r := Deleted(s, n);
    assert forall m :: 0 <= m < |s| && m != n ==> r[m].slot == s[m].slot;
  }

  // ---------------------------------------------------------------- the table

  /** struct lh_table with its functions, for any hash function that depends on the key only. */
  class LhTable<K(==, !new), V(!new)> {
    const hash: K -> nat
    var size: nat
    var count: nat
    var resizes: nat
    var head: int
    var tail: int
    var table: array<Entry<K, V>>
    // The live slots from head to tail.
    ghost var order: seq<nat>

    /** t->count >= t->size * LH_LOAD_FACTOR, with 0.66 taken exactly. */
    predicate Loaded()
      reads this
    {
      50 * count >= 33 * size
    }

    ghost predicate Valid()
      reads this, table
    {
      && table.Length == size > 0 && |order| == count
      && 50 * (count - 1) < 33 * size
      && Listed(table[..], order) && Linked(table[..], order, head, tail)
      && Probed(hash, table[..]) && KeysOnce(table[..])
    }

    /** What the table stands for: its pairs in insertion order. */
    ghost function Items(): (items: seq<(K, V)>)
      reads this, table
      requires Valid()
      ensures |items| == count
    {
      Pairs(table[..], order)
    }

    /** lh_table_new */
    constructor (size: nat, hash: K -> nat)
      requires size > 0
      ensures Valid() && Items() == [] && this.size == size && this.hash == hash && resizes == 0 && fresh(table)
      ensures forall n :: 0 <= n < size ==> table[n].slot.Empty?
    {
      this.hash := hash;
      this.size := size;
      count, resizes, head, tail, order := 0, 0, NIL, NIL, [];
      table := new Entry<K, V>[size](_ => Entry(Empty, NIL, NIL));
    }

    /** lh_table_lookup_entry: the slot of the key, or NIL. */
    method LookupEntry(k: K) returns (e: int)
      requires Valid()
      ensures e == NIL || 0 <= e < table.Length
      ensures if e == NIL then NoKey(table[..], k) else table[e].slot.Live? && table[e].slot.k == k
    {
      hide Listed, Linked, Probed, KeysOnce, NoKey, Passed, Off, Following;
      var h := hash(k) % size;
      var n, cnt := h, 0;
      ghost var s := table[..];
      NothingPassed(s, h, k);
      while cnt < size
        invariant cnt <= size && 0 <= n < size && (cnt < size ==> Off(h, n, size) == cnt)
        invariant Passed(s, h, cnt, k)
      {
        if table[n].slot.Empty? {
          EmptyStops(hash, s, k, n);
          return NIL;
        }
        if !table[n].slot.Freed? && table[n].slot.k == k {
          return n;
        }
        PassOn(s, h, n, k);
        n := Following(n, size);
        cnt := cnt + 1;
      }
      AllPassed(s, h, k);
      return NIL;
    }

    /** lh_table_lookup_ex */
    method Lookup(k: K) returns (v: Option<V>)
      requires Valid()
      ensures v == Find(Items(), k)
    {
      hide Listed, Linked, Probed, KeysOnce, NoKey, Find, Pairs;
      var e := LookupEntry(k);
      PairsHas(table[..], order, k);
      if e == NIL {
        FindNone(Items(), k);
        return None;
      }
      FindLive(table[..], order, e);
      return Some(table[e].slot.v);
    }

    /** The first slot of the probe that is not live: the endless loop of lh_table_insert. */
    method FreeSlotFor(k: K) returns (n: nat)
      requires Valid() && count < size
      ensures n < size && !table[n].slot.Live?
      ensures Taken(table[..], hash(k) % size, Off(hash(k) % size, n, size))
    {
      hide Listed, Linked, Probed, KeysOnce, Taken, Off, Following;
      var h := hash(k) % size;
      ghost var s := table[..];
      ghost var free := FreeSlot(s, order);
      n := h;
      NothingTaken(s, h);
      while true
        invariant 0 <= n < size && 0 <= Off(h, n, size) <= Off(h, free, size) < size
        invariant Taken(s, h, Off(h, n, size))
        decreases size - Off(h, n, size)
      {
        if table[n].slot.Empty? || table[n].slot.Freed? {
          return n;
        }
        TakeOn(s, h, n, free);
        n := Following(n, size);
      }
    }

    /** lh_table_insert of a key that is not in the table. */
    method Insert(k: K, v: V)
      requires Valid() && NoKey(table[..], k)
      modifies this, table
      ensures Valid() && Items() == old(Items()) + [(k, v)]
      ensures table == old(table) || fresh(table)
      ensures size == if old(Loaded()) then 2 * old(size) else old(size)
      ensures resizes == old(resizes) + if old(Loaded()) then 1 else 0
      ensures old(!Loaded() && NoFreed(table[..])) ==> NoFreed(table[..])
      decreases if Loaded() then 2 else 0
    {
      hide Listed, Linked, Probed, KeysOnce, NoKey, Pairs, Taken, Off, NoFreed;
      PairsHas(table[..], order, k);
      if Loaded() {
        Resize(size * 2);
      }
      PairsHas(table[..], order, k);
      Put(k, v);
    }

    /** The second half of lh_table_insert: the slot is filled and linked behind the tail. */
    method Put(k: K, v: V)
      requires Valid() && NoKey(table[..], k) && !Loaded()
      modifies this, table
      ensures Valid() && Items() == old(Items()) + [(k, v)]
      ensures table == old(table) && size == old(size) && resizes == old(resizes)
      ensures old(NoFreed(table[..])) ==> NoFreed(table[..])
    {
      hide Listed, Linked, Probed, KeysOnce, NoKey, Pairs, Taken, Off, NoFreed, InRange;
      var n := FreeSlotFor(k);
      ghost var s, o := table[..], order;
      TailIsLive(s, o, head, tail);
      table[n] := Entry(Live(k, v), NIL, NIL);
      count := count + 1;
      if head == NIL {
        head, tail := n, n;
      } else {
        table[tail] := table[tail].(next := n);
        table[n] := table[n].(prev := tail);
        tail := n;
      }
      order := o + [n];
      assert table[..] == Inserted(s, old(tail), n, k, v);
      InsertKeeps(hash, s, o, old(head), old(tail), n, k, v);
    }

    /**
     lh_table_resize, which counts on no insertion into the new table to resize it again. The pairs
     and their order stay and every tombstone goes.
     */
    method Resize(newSize: nat)
      requires Valid() && newSize > 0 && 50 * (count - 1) < 33 * newSize
      modifies this
      ensures Valid() && Items() == old(Items()) && NoFreed(table[..])
      ensures size == newSize && count == old(count) && resizes == old(resizes) + 1 && fresh(table)
      decreases 1
    {
      hide Listed, Linked, Probed, KeysOnce, NoKey, Pairs, NoFreed, Distinct, Has, Forward, Backward;
      var t := new LhTable(newSize, hash);
      var ent := head;
      ghost var i, items := 0, Items();
      PairsDistinct(table[..], order);
      FirstLink(table[..], order, head, tail);
      NewIsClean(t.table[..]);
      while ent != NIL
        invariant 0 <= i <= |order| == |items| && ent == At(order, i) && fresh(t) && fresh(t.table)
        invariant t.Valid() && t.hash == hash && t.size == newSize && t.resizes == 0 && NoFreed(t.table[..])
        invariant t.Items() == items[..i]
        invariant unchanged(this) && unchanged(table)
        decreases |order| - i
      {
        NextLink(table[..], order, head, tail, i);
        NotYet(items, i);
        PairsHas(t.table[..], t.order, items[i].0);
        t.Insert(table[ent].slot.k, table[ent].slot.v);
        assert items[..i + 1] == items[..i] + [items[i]];
        ent := table[ent].next;
        i := i + 1;
      }
      assert items[..i] == items;
      table := t.table;
      size := newSize;
      head := t.head;
      tail := t.tail;
      order := t.order;
      resizes := resizes + 1;
    }

    /** lh_table_delete_entry: -2 for a place before the table, -1 for a slot that is not live. */
    method DeleteEntry(n: int) returns (rc: int)
      requires Valid() && n < size
      modifies this, table
      ensures Valid() && table == old(table) && size == old(size) && resizes == old(resizes)
      ensures rc == if n < 0 then -2 else if old(table[n].slot.Live?) then 0 else -1
      ensures rc != 0 ==> table[..] == old(table[..]) && Items() == old(Items()) && count == old(count)
      ensures rc == 0 ==> Items() == Without(old(Items()), old(table[n].slot.k)) && count == old(count) - 1
      ensures rc == 0 ==> table[n].slot.Freed?
      ensures rc == 0 ==> forall m :: 0 <= m < size && m != n ==> table[m].slot == old(table[m].slot)
    {
      if n < 0 {
        return -2;
      }
      if table[n].slot.Empty? || table[n].slot.Freed? {
        return -1;
      }
      Unlink(n);
      return 0;
    }

    /** The rest of it, for a live slot. */
    method Unlink(n: nat)
      requires Valid() && n < size && table[n].slot.Live?
      modifies this, table
      ensures Valid() && Items() == Without(old(Items()), old(table[n].slot.k))
      ensures table == old(table) && size == old(size) && resizes == old(resizes) && count == old(count) - 1
      ensures table[n].slot.Freed? && forall m :: 0 <= m < size && m != n ==> table[m].slot == old(table[m].slot)
    {
      hide Listed, Linked, Probed, KeysOnce, Pairs, Without, InRange, Skipped, Deleted;
      ghost var s, o := table[..], order;
      ghost var i := IndexOf(s, o, n);
      LinksOf(s, o, head, tail, i);
      DeleteFrees(s, n);
      DeleteKeeps(hash, s, o, head, tail, i);
      Splice(n);
      count := count - 1;
      order := Skipped(o, i);
      assert forall m :: 0 <= m < size ==> table[m].slot == table[..][m].slot && s[m].slot == old(table[m].slot);
    }

    /** The slot becomes a tombstone and its neighbours are linked to each other. */
    method Splice(n: nat)
      requires table.Length == size && n < size
      requires Neighbours(table[..], head, tail, n)
      modifies this`head, this`tail, table
      ensures table[..] == Deleted(old(table[..]), n)
      ensures head == if old(head) == n then old(table[n].next) else old(head)
      ensures tail == if old(tail) == n then old(table[n].prev) else old(tail)
    {
      table[n] := table[n].(slot := Freed);
      if tail == n && head == n {
        head, tail := NIL, NIL;
      } else if head == n {
        table[table[head].next] := table[table[head].next].(prev := NIL);
        head := table[head].next;
      } else if tail == n {
        table[table[tail].prev] := table[table[tail].prev].(next := NIL);
        tail := table[tail].prev;
      } else {
        var p, q := table[n].prev, table[n].next;
        table[p] := table[p].(next := q);
        table[q] := table[q].(prev := p);
      }
      table[n] := table[n].(next := NIL, prev := NIL);
    }

    /** lh_table_delete: false when the key is not there. */
    method Delete(k: K) returns (ok: bool)
      requires Valid()
      modifies this, table
      ensures Valid() && Items() == Without(old(Items()), k) && ok == Has(old(Items()), k)
      ensures table == old(table) && size == old(size) && resizes == old(resizes)
    {
      hide Listed, Linked, Probed, KeysOnce, NoKey, Pairs, Without, Has;
      var e := LookupEntry(k);
      PairsHas(table[..], order, k);
      if e == NIL {
        FindNone(Items(), k);
        return false;
      }
      LiveHas(table[..], order, e);
      var _ := DeleteEntry(e);
      return true;
    }

    /** existing_entry->v = val */
    method SetValue(n: nat, v: V)
      requires Valid() && n < size && table[n].slot.Live?
      modifies table
      ensures Valid() && Items() == Updated(old(Items()), old(table[n].slot.k), v)
    {
      hide Listed, Linked, Probed, KeysOnce, Pairs, Updated, InRange;
      ghost var s := table[..];
      SetKeeps(hash, s, order, head, tail, n, v);
      table[n] := table[n].(slot := Live(table[n].slot.k, v));
      assert table[..] == s[n := s[n].(slot := Live(s[n].slot.k, v))];
    }

    /** The table's part of json_object_object_add: lookup, then insertion or replacement of the value. */
    method Update(k: K, v: V)
      requires Valid()
      modifies this, table
      ensures Valid() && Items() == Updated(old(Items()), k, v) && (table == old(table) || fresh(table))
    {
      hide Listed, Linked, Probed, KeysOnce, NoKey, Pairs, Updated, Has;
      var e := LookupEntry(k);
      PairsHas(table[..], order, k);
      if e == NIL {
        UpdatedNone(Items(), k, v);
        Insert(k, v);
      } else {
        SetValue(e, v);
      }
    }

    /** lh_foreach, and the walk of lh_table_free: every live slot once, in insertion order. */
    method Walk() returns (items: seq<(K, V)>)
      requires Valid()
      ensures items == Items()
    {
      hide Listed, Linked, Probed, KeysOnce, Pairs, Forward, Backward;
      items := [];
      var c := head;
      ghost var i := 0;
      FirstLink(table[..], order, head, tail);
      while c != NIL
        invariant 0 <= i <= |order| && c == At(order, i) && items == Items()[..i]
        decreases |order| - i
      {
        NextLink(table[..], order, head, tail, i);
        items := items + [(table[c].slot.k, table[c].slot.v)];
        c := table[c].next;
        i := i + 1;
      }
      assert Items()[..i] == Items();
    }
  }

  // ---------------------------------------------------------------- facts the methods use

  /** The first `cnt` slots of the probe from h are not empty and do not hold the key. */
  ghost predicate Passed<K(!new), V(!new)>(s: seq<Entry<K, V>>, h: nat, cnt: nat, k: K) {
    forall m :: 0 <= m < |s| && Off(h, m, |s|) < cnt
      ==> !s[m].slot.Empty? && (s[m].slot.Live? ==> s[m].slot.k != k)
  }

  lemma NothingPassed<K(!new), V(!new)>(s: seq<Entry<K, V>>, h: nat, k: K)
    requires h < |s|
    ensures Passed(s, h, 0, k) && Off(h, h, |s|) == 0
  {
  }

  lemma PassOn<K(!new), V(!new)>(s: seq<Entry<K, V>>, h: nat, n: nat, k: K)
    requires h < |s| && n < |s| && Off(h, n, |s|) >= 0 && Passed(s, h, Off(h, n, |s|), k)
    requires !s[n].slot.Empty? && (s[n].slot.Live? ==> s[n].slot.k != k)
    ensures Passed(s, h, Off(h, n, |s|) + 1, k)
    ensures Following(n, |s|) < |s|
    ensures Off(h, n, |s|) + 1 < |s| ==> Off(h, Following(n, |s|), |s|) == Off(h, n, |s|) + 1
  {
  }

  lemma AllPassed<K(!new), V(!new)>(s: seq<Entry<K, V>>, h: nat, k: K)
    requires h < |s| && Passed(s, h, |s|, k)
    ensures NoKey(s, k)
  {
  }

  /** A key whose probe has reached an empty slot without finding it is not in the table. */
  lemma EmptyStops<K(!new), V(!new)>(hash: K -> nat, s: seq<Entry<K, V>>, k: K, n: nat)
    requires n < |s| && Probed(hash, s) && s[n].slot.Empty?
    requires var h := hash(k) % |s|; Off(h, n, |s|) >= 0 && Passed(s, h, Off(h, n, |s|), k)
    ensures NoKey(s, k)
  {
  }

  lemma FindLive<K(!new), V(!new)>(s: seq<Entry<K, V>>, order: seq<nat>, n: nat)
    requires Listed(s, order) && KeysOnce(s) && n < |s| && s[n].slot.Live?
    ensures Find(Pairs(s, order), s[n].slot.k) == Some(s[n].slot.v)
  {
    var i := IndexOf(s, order, n);
    PairsDistinct(s, order);
    FindAt(Pairs(s, order), i);
  }

  lemma LiveHas<K(!new), V(!new)>(s: seq<Entry<K, V>>, order: seq<nat>, n: nat)
    requires Listed(s, order) && n < |s| && s[n].slot.Live?
    ensures Has(Pairs(s, order), s[n].slot.k)
  {
    var i := IndexOf(s, order, n);
    assert Pairs(s, order)[i].0 == s[n].slot.k;
  }

  lemma IndexOf<K(!new), V(!new)>(s: seq<Entry<K, V>>, order: seq<nat>, n: nat) returns (i: nat)
    requires Listed(s, order) && n < |s| && s[n].slot.Live?
    ensures i < |order| && order[i] == n
  {
    assert n in order;
    i :| 0 <= i < |order| && order[i] == n;
  }

  /** The first `cnt` slots of the probe from h are live. */
  ghost predicate Taken<K(!new), V(!new)>(s: seq<Entry<K, V>>, h: nat, cnt: int) {
    forall m :: 0 <= m < |s| && Off(h, m, |s|) < cnt ==> s[m].slot.Live?
  }

  lemma NothingTaken<K(!new), V(!new)>(s: seq<Entry<K, V>>, h: nat)
    requires h < |s|
    ensures Taken(s, h, 0) && Off(h, h, |s|) == 0
    ensures forall m :: 0 <= m < |s| ==> 0 <= Off(h, m, |s|) < |s|
  {
  }

  lemma TakeOn<K(!new), V(!new)>(s: seq<Entry<K, V>>, h: nat, n: nat, free: nat)
    requires h < |s| && n < |s| && Taken(s, h, Off(h, n, |s|)) && s[n].slot.Live?
    requires free < |s| && !s[free].slot.Live? && Off(h, n, |s|) <= Off(h, free, |s|)
    ensures Following(n, |s|) < |s| && Off(h, Following(n, |s|), |s|) == Off(h, n, |s|) + 1
    ensures Taken(s, h, Off(h, n, |s|) + 1) && Off(h, n, |s|) + 1 <= Off(h, free, |s|)
  {
  }

  ghost predicate NoFreed<K, V>(s: seq<Entry<K, V>>) {
    forall n :: 0 <= n < |s| ==> !s[n].slot.Freed?
  }

  lemma NewIsClean<K(!new), V(!new)>(s: seq<Entry<K, V>>)
    requires forall n :: 0 <= n < |s| ==> s[n].slot.Empty?
    ensures NoFreed(s)
  {
  }

  lemma TailIsLive<K(!new), V(!new)>(s: seq<Entry<K, V>>, order: seq<nat>, head: int, tail: int)
    requires Listed(s, order) && Linked(s, order, head, tail)
    ensures (head == NIL <==> order == []) && (tail == NIL <==> order == [])
    ensures tail != NIL ==> 0 <= tail < |s| && s[tail].slot.Live?
  {
  }

  lemma FirstLink<K(!new), V(!new)>(s: seq<Entry<K, V>>, order: seq<nat>, head: int, tail: int)
    requires Listed(s, order) && Linked(s, order, head, tail)
    ensures head == At(order, 0)
  {
  }

  lemma NextLink<K(!new), V(!new)>(s: seq<Entry<K, V>>, order: seq<nat>, head: int, tail: int, i: nat)
    requires Listed(s, order) && Linked(s, order, head, tail) && At(order, i) != NIL
    ensures i < |order| && 0 <= At(order, i) < |s| && s[At(order, i)].slot.Live?
    ensures s[At(order, i)].next == At(order, i + 1)
    ensures Pairs(s, order)[i] == (s[At(order, i)].slot.k, s[At(order, i)].slot.v)
  {
  }

  lemma NotYet<K(!new), V(!new)>(items: seq<(K, V)>, i: nat)
    requires Distinct(items) && i < |items|
    ensures !Has(items[..i], items[i].0)
  {
  }

  lemma LinksOf<K, V>(s: seq<Entry<K, V>>, order: seq<nat>, head: int, tail: int, i: nat)
    requires Listed(s, order) && Linked(s, order, head, tail) && i < |order|
    ensures s[order[i]].prev == At(order, i - 1) && s[order[i]].next == At(order, i + 1)
    ensures (head == order[i] <==> i == 0) && (tail == order[i] <==> i == |order| - 1)
    ensures i > 0 ==> 0 <= order[i - 1] < |s| && order[i - 1] != order[i]
    ensures i + 1 < |order| ==> 0 <= order[i + 1] < |s| && order[i + 1] != order[i]
    ensures 0 < i && i + 1 < |order| ==> order[i - 1] != order[i + 1]
  {
  }

  lemma InsertKeeps<K(!new), V(!new)>(
    hash: K -> nat, s: seq<Entry<K, V>>, order: seq<nat>, head: int, tail: int, n: nat, k: K, v: V)
    requires Listed(s, order) && Linked(s, order, head, tail) && n < |s| && !s[n].slot.Live?
    requires Probed(hash, s) && KeysOnce(s) && NoKey(s, k)
    requires Taken(s, hash(k) % |s|, Off(hash(k) % |s|, n, |s|))
    requires tail == NIL || (0 <= tail < |s| && s[tail].slot.Live?)
    ensures var r := Inserted(s, tail, n, k, v);
            && Listed(r, order + [n]) && Linked(r, order + [n], if head == NIL then n else head, n)
            && Probed(hash, r) && KeysOnce(r) && Pairs(r, order + [n]) == Pairs(s, order) + [(k, v)]
            && (NoFreed(s) ==> NoFreed(r))
  {
    var r := Inserted(s, tail, n, k, v);
    assert Filling(s, r, n, k, v);
    InsertListed(s, r, order, n, k, v);
    InsertPairs(s, r, order, n, k, v);
    hide Listed, Linked, KeysOnce, Pairs, NoKey, Probed, Off;
    InsertLinked(s, order, head, tail, n, k, v);
    InsertProbed(hash, s, tail, n, k, v);
  }

  lemma DeleteKeeps<K(!new), V(!new)>(
    hash: K -> nat, s: seq<Entry<K, V>>, order: seq<nat>, head: int, tail: int, i: nat)
    requires Listed(s, order) && Linked(s, order, head, tail) && i < |order|
    requires Probed(hash, s) && KeysOnce(s)
    requires s[order[i]].prev == NIL || 0 <= s[order[i]].prev < |s|
    requires s[order[i]].next == NIL || 0 <= s[order[i]].next < |s|
    ensures var n := order[i];
            var r, o := Deleted(s, n), Skipped(order, i);
            && Listed(r, o)
            && Linked(r, o, if head == n then s[n].next else head, if tail == n then s[n].prev else tail)
            && Probed(hash, r) && KeysOnce(r) && Pairs(r, o) == Without(Pairs(s, order), s[n].slot.k)
  {
    hide Linked, KeysOnce, Pairs, Probed, Off, Skipped, Freeing, Without, Distinct, Find;
    var r := Deleted(s, order[i]);
    assert Pairs(s, order)[i].0 == s[order[i]].slot.k;
    PairsDistinct(s, order);
    FindAt(Pairs(s, order), i);
    DeleteFrees(s, order[i]);
    hide Deleted, Listed;
    DeleteListed(s, r, order, i);
    DeletePairs(s, r, order, i);
    DeleteLinked(s, order, head, tail, i);
    DeleteProbed(hash, s, order[i]);
  }

  /** The same keys and links in the same slots. */
  ghost predicate SameShape<K, V>(s: seq<Entry<K, V>>, r: seq<Entry<K, V>>) {
    && |r| == |s|
    && (forall m :: 0 <= m < |s| ==> r[m].slot.Live? == s[m].slot.Live? && r[m].slot.Empty? == s[m].slot.Empty?)
    && (forall m :: 0 <= m < |s| && s[m].slot.Live? ==> r[m].slot.k == s[m].slot.k)
    && (forall m :: 0 <= m < |s| ==> r[m].next == s[m].next && r[m].prev == s[m].prev)
  }

  lemma ShapeListed<K(!new), V(!new)>(
    s: seq<Entry<K, V>>, r: seq<Entry<K, V>>, order: seq<nat>, head: int, tail: int)
    requires Listed(s, order) && Linked(s, order, head, tail) && SameShape(s, r)
    ensures Listed(r, order) && Linked(r, order, head, tail)
  {
  }

  lemma ShapeProbed<K(!new), V(!new)>(hash: K -> nat, s: seq<Entry<K, V>>, r: seq<Entry<K, V>>)
    requires s != [] && Probed(hash, s) && KeysOnce(s) && SameShape(s, r)
    ensures Probed(hash, r) && KeysOnce(r)
  {
    hide Off;
  }

  /** Changing the value of a live slot changes one pair and nothing else. */
  lemma SetKeeps<K(!new), V(!new)>(
    hash: K -> nat, s: seq<Entry<K, V>>, order: seq<nat>, head: int, tail: int, n: nat, v: V)
    requires n < |s| && s[n].slot.Live?
    requires Listed(s, order) && Linked(s, order, head, tail) && Probed(hash, s) && KeysOnce(s)
    ensures var r := s[n := s[n].(slot := Live(s[n].slot.k, v))];
            && Listed(r, order) && Linked(r, order, head, tail) && Probed(hash, r) && KeysOnce(r)
            && Pairs(r, order) == Updated(Pairs(s, order), s[n].slot.k, v)
  {
    hide Listed, Linked, Probed, KeysOnce, Pairs, Updated, InRange;
    var r := s[n := s[n].(slot := Live(s[n].slot.k, v))];
    ShapeListed(s, r, order, head, tail);
    ShapeProbed(hash, s, r);
    SetPairs(s, r, order, n, v);
  }

  lemma SetPairs<K(!new), V(!new)>(s: seq<Entry<K, V>>, r: seq<Entry<K, V>>, order: seq<nat>, n: nat, v: V)
    requires Listed(s, order) && KeysOnce(s) && n < |s| && s[n].slot.Live? && Listed(r, order)
    requires r == s[n := s[n].(slot := Live(s[n].slot.k, v))]
    ensures Pairs(r, order) == Updated(Pairs(s, order), s[n].slot.k, v)
  {
    hide Pairs, Updated;
    var items := Pairs(s, order);
    var i := IndexOf(s, order, n);
    PairsDistinct(s, order);
    UpdatedAt(items, i, v);
    assert forall j :: 0 <= j < |order| ==> Pairs(r, order)[j] == items[i := (items[i].0, v)][j];
  }
}

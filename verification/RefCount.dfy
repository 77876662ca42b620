/**
 Reference counts: json_object_get and json_object_put over the whole heap, and the operations that
 hand references to containers.
 */
module RefCount {
  import opened Bytes
  import LinkHash

  datatype Ptr = Null | To(at: nat)

  datatype Body = Leaf | ArrayOf(slots: seq<Ptr>) | ObjectOf(fields: seq<(Text, Ptr)>)

  // One json_object. An address is its place in the heap; a freed address is not used again.
  datatype Cell = Freed | Obj(count: nat, body: Body)

  predicate Live(c: Cell) {
    c.Obj? && c.count > 0
  }

  // ---------------------------------------------------------------- counting references

  function Values(fields: seq<(Text, Ptr)>): (ps: seq<Ptr>)
    ensures |ps| == |fields| && forall i :: 0 <= i < |fields| ==> ps[i] == fields[i].1
  {
    if fields == [] then [] else [fields[0].1] + Values(fields[1..])
  }

  /** The slots of a container. */
  function Kids(b: Body): seq<Ptr> {
    match b
    case Leaf => []
    case ArrayOf(slots) => slots
    case ObjectOf(fields) => Values(fields)
  }

  function One(p: Ptr): multiset<nat> {
    if p.Null? then multiset{} else multiset{p.at}
  }

  function Targets(ps: seq<Ptr>): multiset<nat> {
    if ps == [] then multiset{} else One(ps[0]) + Targets(ps[1..])
  }

  function CellRefs(c: Cell): multiset<nat> {
    if Live(c) then Targets(Kids(c.body)) else multiset{}
  }

  /** The references held in slots of the live containers whose address is in `some`. */
  ghost function HeldBy(h: seq<Cell>, some: iset<nat>): multiset<nat> {
    if h == [] then multiset{}
    else HeldBy(h[..|h| - 1], some) + if |h| - 1 in some then CellRefs(h[|h| - 1]) else multiset{}
  }

  predicate IsAddress(r: nat) {
    true
  }

  ghost const ANYWHERE: iset<nat> := iset r: nat | IsAddress(r)

  ghost function Held(h: seq<Cell>): multiset<nat> {
    HeldBy(h, ANYWHERE)
  }

  function LiveCount(h: seq<Cell>): nat {
    if h == [] then 0 else LiveCount(h[..|h| - 1]) + if Live(h[|h| - 1]) then 1 else 0
  }

  lemma {:induction false} HeldUpdate(h: seq<Cell>, some: iset<nat>, r: nat, c: Cell)
    requires r < |h|
    ensures HeldBy(h[r := c], some) + (if r in some then CellRefs(h[r]) else multiset{})
            == HeldBy(h, some) + (if r in some then CellRefs(c) else multiset{})
  {
    hide CellRefs;
    var g := h[r := c];
    if r == |h| - 1 {
      assert g[..|h| - 1] == h[..|h| - 1];
    } else {
      HeldUpdate(h[..|h| - 1], some, r, c);
      assert g[..|h| - 1] == h[..|h| - 1][r := c];
    }
  }

  lemma {:induction false} LiveFalls(g: seq<Cell>, h: seq<Cell>)
    requires |g| == |h| && forall r :: 0 <= r < |h| ==> Live(g[r]) ==> Live(h[r])
    ensures LiveCount(g) <= LiveCount(h)
    ensures (exists r :: 0 <= r < |h| && Live(h[r]) && !Live(g[r])) ==> LiveCount(g) < LiveCount(h)
  {
    if h == [] {
    } else {
      LiveFalls(g[..|g| - 1], h[..|h| - 1]);
    }
  }

  // ---------------------------------------------------------------- the invariant

  /**
   Conservation: the count of every live object is the number of references that callers own plus
   the number of container slots that hold it, and no reference leads to a dead object.
   */
  ghost predicate Conserved(h: seq<Cell>, owned: multiset<nat>) {
    && (forall r :: r in owned || r in Held(h) ==> r < |h| && Live(h[r]))
    && (forall r :: 0 <= r < |h| && Live(h[r]) ==> h[r].count == owned[r] + Held(h)[r])
  }

  /**
   A set of addresses is closed under losing references: an object whose count is no more than the
   references to it from the set, and those that are being released, is in the set.
   */
  ghost predicate Closed(h: seq<Cell>, released: multiset<nat>, c: iset<nat>) {
    forall r :: 0 <= r < |h| && Live(h[r]) && h[r].count <= HeldBy(h, c)[r] + released[r] ==> r in c
  }

  /** Nothing else happens than that live objects lose references, and that some in `c` are freed. */
  ghost predicate Released(g: seq<Cell>, h: seq<Cell>, c: iset<nat>) {
    && |g| == |h|
    && forall r :: 0 <= r < |g| ==>
         if Live(g[r]) then
           (h[r] == Freed && r in c) || (Live(h[r]) && h[r].body == g[r].body && h[r].count <= g[r].count)
         else h[r] == g[r]
  }

  lemma NothingReleased(h: seq<Cell>, c: iset<nat>)
    ensures Released(h, h, c)
  {
  }

  lemma ReleasedOn(f: seq<Cell>, g: seq<Cell>, h: seq<Cell>, c: iset<nat>)
    requires Released(f, g, c) && Released(g, h, c)
    ensures Released(f, h, c)
  {
  }

  lemma ReleasedOne(h: seq<Cell>, r: nat, c: iset<nat>)
    requires r < |h| && Live(h[r]) && h[r].count > 1
    ensures Released(h, h[r := Obj(h[r].count - 1, h[r].body)], c)
  {
  }

  lemma ReleasedDead(g: seq<Cell>, h: seq<Cell>, r: nat, c: iset<nat>)
    requires r < |g| && r in c && Live(g[r]) && Released(g[r := Freed], h, c)
    ensures Released(g, h, c)
  {
  }

  /** What is dead already stays as it is, and can be freed before or after. */
  lemma ReleasedFreed(g: seq<Cell>, h: seq<Cell>, r: nat, c: iset<nat>)
    requires r < |g| && !Live(g[r]) && Released(g, h, c)
    ensures |h| == |g| && h[r] == g[r] && Released(g[r := Freed], h[r := Freed], c)
  {
  }

  lemma ReleasedLive(g: seq<Cell>, h: seq<Cell>, c: iset<nat>)
    requires Released(g, h, c)
    ensures LiveCount(h) <= LiveCount(g)
  {
    LiveFalls(h, g);
  }

  // ---------------------------------------------------------------- one object loses a reference

  lemma Cancel(a: multiset<nat>, b: multiset<nat>, x: multiset<nat>)
    requires a + x == b + x
    ensures a == b
  {
    assert forall y :: a[y] == (a + x)[y] - x[y] && b[y] == (b + x)[y] - x[y];
  }

  /** An object that holds the same as before changes nothing in what is held. */
  lemma SameRefs(h: seq<Cell>, r: nat, cell: Cell, some: iset<nat>)
    requires r < |h| && CellRefs(cell) == CellRefs(h[r])
    ensures HeldBy(h[r := cell], some) == HeldBy(h, some) && Held(h[r := cell]) == Held(h)
  {
    hide HeldBy, CellRefs;
    HeldUpdate(h, some, r, cell);
    HeldUpdate(h, ANYWHERE, r, cell);
    var x := CellRefs(cell);
    if r in some {
      Cancel(HeldBy(h[r := cell], some), HeldBy(h, some), x);
    } else {
      Cancel(HeldBy(h[r := cell], some), HeldBy(h, some), multiset{});
    }
    assert IsAddress(r);
    Cancel(HeldBy(h[r := cell], ANYWHERE), HeldBy(h, ANYWHERE), x);
  }

  /** What is held after the object r is replaced by one that holds nothing. */
  lemma FewerRefs(h: seq<Cell>, r: nat, cell: Cell, some: iset<nat>)
    requires r < |h| && CellRefs(cell) == multiset{}
    ensures r in some ==> HeldBy(h[r := cell], some) + CellRefs(h[r]) == HeldBy(h, some)
    ensures Held(h[r := cell]) + CellRefs(h[r]) == Held(h)
  {
    hide HeldBy, CellRefs;
    HeldUpdate(h, some, r, cell);
    HeldUpdate(h, ANYWHERE, r, cell);
    assert IsAddress(r);
    assert HeldBy(h, some) + multiset{} == HeldBy(h, some);
  }

  lemma LoseOne(h: seq<Cell>, owned: multiset<nat>, r: nat, released: multiset<nat>, c: iset<nat>)
    requires Conserved(h, owned) && r < |h| && Live(h[r]) && h[r].count > 1 && owned[r] > 0
    requires Closed(h, released, c) && released[r] > 0
    ensures var g := h[r := Obj(h[r].count - 1, h[r].body)];
            Conserved(g, owned - multiset{r}) && Closed(g, released - multiset{r}, c)
  {
    hide Held, HeldBy, Targets, Kids;
    SameRefs(h, r, Obj(h[r].count - 1, h[r].body), c);
  }

  /** The last reference is gone: what the object held is now being released. */
  lemma Die(h: seq<Cell>, owned: multiset<nat>, r: nat)
    requires Conserved(h, owned) && r < |h| && Live(h[r]) && h[r].count == 1 && owned[r] > 0
    ensures Conserved(h[r := Obj(0, h[r].body)], owned - multiset{r} + Targets(Kids(h[r].body)))
  {
    hide Held, HeldBy, Targets, Kids;
    FewerRefs(h, r, Obj(0, h[r].body), ANYWHERE);
    var g, x := h[r := Obj(0, h[r].body)], Targets(Kids(h[r].body));
    assert forall y :: Held(h)[y] == Held(g)[y] + x[y] by {
      assert forall y :: (Held(g) + x)[y] == Held(g)[y] + x[y];
    }
  }

  lemma DieClosed(h: seq<Cell>, r: nat, released: multiset<nat>, c: iset<nat>)
    requires r < |h| && Live(h[r]) && h[r].count == 1 && Closed(h, released, c) && released[r] > 0
    ensures r in c
    ensures Closed(h[r := Obj(0, h[r].body)], released - multiset{r} + Targets(Kids(h[r].body)), c)
  {
    hide Held, HeldBy, Targets, Kids;
    FewerRefs(h, r, Obj(0, h[r].body), c);
    var g, x := h[r := Obj(0, h[r].body)], Targets(Kids(h[r].body));
    assert forall y :: (HeldBy(g, c) + x)[y] == HeldBy(g, c)[y] + x[y];
  }

  /** Freeing the memory of a dead object changes no reference. */
  lemma Bury(h: seq<Cell>, owned: multiset<nat>, r: nat, released: multiset<nat>, c: iset<nat>)
    requires Conserved(h, owned) && Closed(h, released, c) && r < |h| && !Live(h[r])
    ensures Conserved(h[r := Freed], owned) && Closed(h[r := Freed], released, c)
  {
    hide Held, HeldBy;
    SameRefs(h, r, Freed, c);
  }

  lemma TargetsSplit(ps: seq<Ptr>, i: nat)
    requires i < |ps|
    ensures Targets(ps[i..]) == One(ps[i]) + Targets(ps[i + 1..])
  {
    assert ps[i..][1..] == ps[i + 1..];
  }

  lemma NoTargets(ps: seq<Ptr>)
    requires ps == []
    ensures Targets(ps) == multiset{}
  {
  }

  lemma GainOne(h: seq<Cell>, owned: multiset<nat>, r: nat)
    requires Conserved(h, owned) && r < |h| && Live(h[r])
    ensures Conserved(h[r := Obj(h[r].count + 1, h[r].body)], owned + multiset{r})
  {
    hide Held, HeldBy, Targets, Kids;
    SameRefs(h, r, Obj(h[r].count + 1, h[r].body), ANYWHERE);
  }

  lemma OwnedIsLive(h: seq<Cell>, owned: multiset<nat>, r: nat)
    requires Conserved(h, owned) && r in owned
    ensures r < |h| && Live(h[r])
  {
  }

  lemma TakeAway(left: multiset<nat>, x: multiset<nat>, rest: multiset<nat>)
    ensures left + (x + rest) - x == left + rest
  {
  }

  // ---------------------------------------------------------------- what dies is exactly what must

  predicate Died(g: seq<Cell>, h: seq<Cell>, r: nat) {
    r < |g| && r < |h| && Live(g[r]) && h[r] == Freed
  }

  lemma CellSplit(g: seq<Cell>, h: seq<Cell>, i: nat)
    requires Released(g, h, ANYWHERE) && i < |g|
    ensures CellRefs(g[i]) == (if Died(g, h, i) then CellRefs(g[i]) else multiset{}) + CellRefs(h[i])
  {
    hide Targets, Kids;
  }

  lemma Pairwise(a: multiset<nat>, b: multiset<nat>, x: multiset<nat>, y: multiset<nat>)
    ensures (a + b) + (x + y) == (a + x) + (b + y)
  {
  }

  /** The share of the last of the first n cells. */
  lemma {:induction false} HeldLast(h: seq<Cell>, n: nat, some: iset<nat>)
    requires 0 < n <= |h|
    ensures HeldBy(h[..n], some)
            == HeldBy(h[..n - 1], some) + if n - 1 in some then CellRefs(h[n - 1]) else multiset{}
  {
    hide CellRefs;
    assert h[..n][..n - 1] == h[..n - 1];
  }

  lemma {:induction false} HeldSplit(g: seq<Cell>, h: seq<Cell>, n: nat, dead: iset<nat>)
    requires n <= |g| == |h| && Released(g, h, ANYWHERE) && forall r: nat :: r in dead <==> Died(g, h, r)
    ensures HeldBy(g[..n], ANYWHERE) == HeldBy(g[..n], dead) + HeldBy(h[..n], ANYWHERE)
  {
    if n == 0 {
    } else {
      hide CellRefs, Died, Released, HeldBy;
      HeldSplit(g, h, n - 1, dead);
      HeldLast(g, n, ANYWHERE);
      HeldLast(g, n, dead);
      HeldLast(h, n, ANYWHERE);
      assert IsAddress(n - 1);
      CellSplit(g, h, n - 1);
      var x := if n - 1 in dead then CellRefs(g[n - 1]) else multiset{};
      Pairwise(HeldBy(g[..n - 1], dead), HeldBy(h[..n - 1], ANYWHERE), x, CellRefs(h[n - 1]));
    }
  }

  /** The least closed set: the objects whose references all come from those released and from each other. */
  ghost function Least(h: seq<Cell>, released: multiset<nat>): iset<nat> {
    iset r: nat | InEveryClosed(h, released, r)
  }

  ghost predicate InEveryClosed(h: seq<Cell>, released: multiset<nat>, r: nat) {
    forall c: iset<nat> :: Closed(h, released, c) ==> r in c
  }

  lemma {:induction false} HeldGrows(h: seq<Cell>, some: iset<nat>, more: iset<nat>)
    requires forall r :: r in some ==> r in more
    ensures HeldBy(h, some) <= HeldBy(h, more)
  {
    hide CellRefs;
    if h == [] {
    } else {
      HeldGrows(h[..|h| - 1], some, more);
    }
  }

  lemma LeastIsClosed(h: seq<Cell>, released: multiset<nat>)
    ensures Closed(h, released, Least(h, released))
    ensures forall c: iset<nat>, r :: Closed(h, released, c) && r in Least(h, released) ==> r in c
  {
    hide HeldBy;
    var least := Least(h, released);
    forall r | 0 <= r < |h| && Live(h[r]) && h[r].count <= HeldBy(h, least)[r] + released[r]
      ensures r in least
    {
      forall c: iset<nat> | Closed(h, released, c)
        ensures r in c
      {
        HeldGrows(h, least, c);
      }
    }
  }

  /**
   What dies when a reference to p is put is the least closed set: an object dies if and only if all
   its references come from the one given up and from other objects that die.
   */
  lemma DiedIsLeast(g: seq<Cell>, h: seq<Cell>, owned: multiset<nat>, p: Ptr)
    requires Conserved(g, owned) && One(p) <= owned && Conserved(h, owned - One(p))
    requires Released(g, h, Least(g, One(p)))
    ensures forall r: nat :: Died(g, h, r) <==> r in Least(g, One(p))
  {
    hide Conserved, Least, Closed;
    LeastIsClosed(g, One(p));
    ReleasedAnywhere(g, h, Least(g, One(p)));
    DeadAreClosed(g, h, owned, p);
    var dead := iset r | Died(g, h, r);
    forall r: nat
      ensures Died(g, h, r) <==> r in Least(g, One(p))
    {
      assert r in dead <==> Died(g, h, r);
    }
  }

  lemma ReleasedAnywhere(g: seq<Cell>, h: seq<Cell>, c: iset<nat>)
    requires Released(g, h, c)
    ensures Released(g, h, ANYWHERE)
  {
    assert forall r: nat :: IsAddress(r) ==> r in ANYWHERE;
  }

  /** An object to which a caller keeps a reference survives. */
  lemma OwnedIsSafe(h: seq<Cell>, owned: multiset<nat>, p: Ptr, o: nat)
    requires Conserved(h, owned) && One(p) <= owned && owned[o] > One(p)[o]
    ensures o !in Least(h, One(p))
  {
    hide HeldBy;
    var c := iset r: nat | IsAddress(r) && r != o;
    HeldGrows(h, c, ANYWHERE);
    assert Closed(h, One(p), c);
  }

  /** So does an object held by one that survives: a container that was only borrowed from its parent. */
  lemma BorrowedIsSafe(h: seq<Cell>, owned: multiset<nat>, p: Ptr, parent: nat, o: nat)
    requires Conserved(h, owned) && One(p) <= owned && parent < |h| && parent !in Least(h, One(p))
    requires o in CellRefs(h[parent])
    ensures o !in Least(h, One(p))
  {
    hide HeldBy, CellRefs;
    var least := Least(h, One(p));
    var c := iset r: nat | r in least && r != o;
    LeastIsClosed(h, One(p));
    HeldGrows(h, c, least);
    HeldOutside(h, least, parent, o);
    HeldGrows(h, c, ANYWHERE);
    assert HeldBy(h, c)[o] < Held(h)[o];
    assert One(p)[o] <= owned[o];
    assert Closed(h, One(p), c);
  }

  /** What an object outside of a set holds is not held by the set. */
  lemma {:induction false} HeldOutside(h: seq<Cell>, some: iset<nat>, r: nat, o: nat)
    requires r < |h| && r !in some && o in CellRefs(h[r])
    ensures HeldBy(h, some)[o] < Held(h)[o]
    decreases |h|
  {
    hide CellRefs;
    var n := |h| - 1;
    assert IsAddress(n);
    if r == n {
      HeldGrows(h[..n], some, ANYWHERE);
    } else {
      assert h[..n][r] == h[r];
      HeldOutside(h[..n], some, r, o);
    }
  }

  /** The objects that die when a reference to p is put form a closed set. */
  lemma DeadAreClosed(g: seq<Cell>, h: seq<Cell>, owned: multiset<nat>, p: Ptr)
    requires Conserved(g, owned) && One(p) <= owned && Conserved(h, owned - One(p)) && Released(g, h, ANYWHERE)
    ensures Closed(g, One(p), iset r | Died(g, h, r))
  {
    hide HeldBy, CellRefs, Died;
    var dead := iset r | Died(g, h, r);
    HeldSplit(g, h, |g|, dead);
    assert g[..|g|] == g && h[..|h|] == h;
    assert Held(g) == HeldBy(g, dead) + Held(h);
    hide Held;
    forall r | 0 <= r < |g| && Live(g[r]) && g[r].count <= HeldBy(g, dead)[r] + One(p)[r]
      ensures r in dead
    {
      SurvivorHasRefs(g, h, owned, p, r);
      assert Held(g)[r] == HeldBy(g, dead)[r] + Held(h)[r];
    }
  }

  /** A survivor keeps more references than it lost. */
  lemma SurvivorHasRefs(g: seq<Cell>, h: seq<Cell>, owned: multiset<nat>, p: Ptr, r: nat)
    requires Conserved(g, owned) && One(p) <= owned && Conserved(h, owned - One(p)) && Released(g, h, ANYWHERE)
    requires r < |g| && Live(g[r])
    ensures |h| == |g| && g[r].count == owned[r] + Held(g)[r]
    ensures Died(g, h, r) || owned[r] - One(p)[r] + Held(h)[r] > 0
  {
    hide Held;
  }

  // ---------------------------------------------------------------- containers

  lemma {:induction false} TargetsUpdate(ps: seq<Ptr>, i: nat, p: Ptr)
    requires i < |ps|
    ensures Targets(ps[i := p]) + One(ps[i]) == Targets(ps) + One(p)
  {
    hide One;
    if i == 0 {
      assert ps[0 := p][1..] == ps[1..];
    } else {
      TargetsUpdate(ps[1..], i - 1, p);
      assert ps[i := p][1..] == ps[1..][i - 1 := p];
      var x, a, b := One(ps[0]), Targets(ps[1..][i - 1 := p]), Targets(ps[1..]);
      assert Targets(ps[i := p]) == x + a && Targets(ps) == x + b && ps[1..][i - 1] == ps[i];
      assert x + a + One(ps[i]) == x + (a + One(ps[i])) && x + b + One(p) == x + (b + One(p));
    }
  }

  lemma {:induction false} TargetsConcat(ps: seq<Ptr>, qs: seq<Ptr>)
    ensures Targets(ps + qs) == Targets(ps) + Targets(qs)
  {
    hide One;
    if ps == [] {
      assert ps + qs == qs;
    } else {
      assert (ps + qs)[1..] == ps[1..] + qs;
      TargetsConcat(ps[1..], qs);
    }
  }

  lemma {:induction false} TargetsNull(n: nat, ps: seq<Ptr>)
    requires |ps| == n && forall i :: 0 <= i < n ==> ps[i].Null?
    ensures Targets(ps) == multiset{}
  {
    if n == 0 {
    } else {
      TargetsNull(n - 1, ps[1..]);
    }
  }

  lemma SameTotals(h: seq<Cell>, g: seq<Cell>, owned: multiset<nat>, owned': multiset<nat>)
    requires Conserved(h, owned) && |g| == |h|
    requires forall y :: owned[y] + Held(h)[y] == owned'[y] + Held(g)[y]
    requires forall y :: 0 <= y < |h| ==> Live(g[y]) == Live(h[y]) && (Live(h[y]) ==> g[y].count == h[y].count)
    ensures Conserved(g, owned')
  {
    hide Held;
    forall y | y in owned' || y in Held(g)
      ensures y < |g| && Live(g[y])
    {
      assert owned[y] + Held(h)[y] > 0;
    }
  }

  lemma HeldBody(h: seq<Cell>, r: nat, body: Body)
    requires r < |h| && Live(h[r])
    ensures Held(h[r := Obj(h[r].count, body)]) + Targets(Kids(h[r].body)) == Held(h) + Targets(Kids(body))
  {
    hide HeldBy, Targets, Kids;
    var cell := Obj(h[r].count, body);
    HeldUpdate(h, ANYWHERE, r, cell);
    assert IsAddress(r);
  }

  /** References move between the callers and the slots of one live container. */
  lemma Move(h: seq<Cell>, owned: multiset<nat>, r: nat, body: Body, gain: multiset<nat>, lose: multiset<nat>)
    requires Conserved(h, owned) && r < |h| && Live(h[r]) && gain <= owned
    requires Targets(Kids(body)) + lose == Targets(Kids(h[r].body)) + gain
    ensures Conserved(h[r := Obj(h[r].count, body)], owned - gain + lose)
  {
    var g := h[r := Obj(h[r].count, body)];
    hide HeldBy, Targets, Kids, Held, Conserved;
    HeldBody(h, r, body);
    Totals(owned, gain, lose, Held(h), Held(g), Targets(Kids(h[r].body)), Targets(Kids(body)));
    SameTotals(h, g, owned, owned - gain + lose);
  }

  lemma Totals(
    owned: multiset<nat>, gain: multiset<nat>, lose: multiset<nat>, held: multiset<nat>, held': multiset<nat>,
    a: multiset<nat>, b: multiset<nat>)
    requires gain <= owned && held' + a == held + b && b + lose == a + gain
    ensures forall y :: owned[y] + held[y] == (owned - gain + lose)[y] + held'[y]
  {
    forall y
      ensures owned[y] + held[y] == (owned - gain + lose)[y] + held'[y]
    {
      assert (held' + a)[y] == (held + b)[y];
      assert (b + lose)[y] == (a + gain)[y];
    }
  }

  // ---------------------------------------------------------------- members

  function IndexOf(fields: seq<(Text, Ptr)>, key: Text): (i: nat)
    ensures i <= |fields| && (i < |fields| ==> fields[i].0 == key)
    ensures i == |fields| <==> !LinkHash.Has(fields, key)
  {
    if fields == [] then 0
    else if fields[0].0 == key then (assert fields[0].0 == key; 0)
    else
      assert forall i :: 0 <= i < |fields[1..]| ==> fields[1..][i] == fields[i + 1];
      1 + IndexOf(fields[1..], key)
  }

  lemma IndexIsKey(fields: seq<(Text, Ptr)>, key: Text)
    ensures IndexOf(fields, key) <= |fields|
    ensures IndexOf(fields, key) < |fields| ==> fields[IndexOf(fields, key)].0 == key
  {
  }

  lemma {:induction false} ValuesAre(fields: seq<(Text, Ptr)>, i: nat, key: Text, p: Ptr)
    requires i < |fields|
    ensures Values(fields[i := (key, p)]) == Values(fields)[i := p]
  {
  }

  lemma {:induction false} ValuesSnoc(fields: seq<(Text, Ptr)>, key: Text, p: Ptr)
    ensures Values(fields + [(key, p)]) == Values(fields) + [p]
  {
  }

  lemma {:induction false} ValuesSkip(fields: seq<(Text, Ptr)>, i: nat)
    requires i < |fields|
    ensures Values(fields[..i] + fields[i + 1..]) == Values(fields)[..i] + Values(fields)[i + 1..]
  {
    hide Values;
    var some, ps := fields[..i] + fields[i + 1..], Values(fields);
    assert forall j :: 0 <= j < |some| ==> Values(some)[j] == (ps[..i] + ps[i + 1..])[j];
  }

  /** json_object_object_add on the list of members: an existing key keeps its place. */
  lemma {:induction false} UpdatedIs(fields: seq<(Text, Ptr)>, key: Text, p: Ptr)
    ensures var i := IndexOf(fields, key);
            LinkHash.Updated(fields, key, p) == if i < |fields| then fields[i := (key, p)] else fields + [(key, p)]
  {
    if fields == [] || fields[0].0 == key {
    } else {
      UpdatedIs(fields[1..], key, p);
      assert fields == [fields[0]] + fields[1..];
    }
  }

  /** What dies when the container `o` loses a slot, its body becoming `body`, and what it held is put. */
  ghost function Doomed(h: seq<Cell>, o: nat, body: Body, existing: Ptr): iset<nat>
    requires o < |h| && h[o].Obj?
  {
    Least(h[o := Obj(h[o].count, body)], One(existing))
  }

  lemma TwoHeld(h: seq<Cell>, some: iset<nat>)
    requires |h| == 2
    ensures HeldBy(h, some)
            == (if 0 in some then CellRefs(h[0]) else multiset{}) + (if 1 in some then CellRefs(h[1]) else multiset{})
  {
    HeldLast(h, 1, some);
    HeldLast(h, 2, some);
    hide CellRefs;
    assert h[..0] == [] && h[..2] == h;
  }

  /** An array of one slot. */
  function Holder(p: Ptr): Cell {
    Obj(1, ArrayOf([p]))
  }

  lemma HolderRefs(p: Ptr)
    ensures CellRefs(Holder(p)) == One(p)
  {
    OneTarget(p);
  }

  lemma MutualIsConserved(h: seq<Cell>)
    requires h == [Holder(To(1)), Holder(To(0))]
    ensures Conserved(h, multiset{})
  {
    HolderRefs(To(0));
    HolderRefs(To(1));
    hide CellRefs, HeldBy;
    TwoHeld(h, ANYWHERE);
    assert IsAddress(0) && IsAddress(1);
    assert Held(h) == multiset{1, 0};
  }

  lemma BothAreClosed(g: seq<Cell>, c: iset<nat>)
    requires g == [Holder(Ptr.Null), Holder(To(0))] && Closed(g, multiset{1}, c)
    ensures 0 in c
  {
    HolderRefs(To(0));
    HolderRefs(Ptr.Null);
    hide CellRefs, HeldBy;
    TwoHeld(g, c);
    assert Live(g[1]) && g[1].count <= HeldBy(g, c)[1] + multiset{1}[1];
    assert 1 in c;
    assert Live(g[0]) && g[0].count <= HeldBy(g, c)[0] + multiset{1}[0];
  }

  /** Two arrays that hold each other and that nobody owns: clearing the slot of one kills both. */
  lemma ContainerCanDie()
    ensures var h := [Holder(To(1)), Holder(To(0))];
            Conserved(h, multiset{}) && 0 in Doomed(h, 0, ArrayOf([Ptr.Null]), To(1))
  {
    var h, g := [Holder(To(1)), Holder(To(0))], [Holder(Ptr.Null), Holder(To(0))];
    assert h[0 := Obj(1, ArrayOf([Ptr.Null]))] == g;
    hide Closed, Conserved;
    MutualIsConserved(h);
    forall c | Closed(g, One(To(1)), c)
      ensures 0 in c
    {
      BothAreClosed(g, c);
    }
  }

  /** The objects other than `o` only lose references or are freed. */
  ghost predicate Others(g: seq<Cell>, h: seq<Cell>, o: nat)
    requires o < |h|
  {
    o < |g| && Released(g[o := h[o]], h, ANYWHERE)
  }

  lemma DropOthers(start: seq<Cell>, cleared: seq<Cell>, h: seq<Cell>, o: nat)
    requires o < |start| == |cleared| && cleared == start[o := cleared[o]]
    requires Live(cleared[o]) && Released(cleared, h, ANYWHERE)
    ensures |h| == |start| && (Live(h[o]) <==> !Died(cleared, h, o))
    ensures Live(h[o]) ==> Others(start, h, o) && h[o].body == cleared[o].body
  {
  }

  lemma OthersOn(start: seq<Cell>, g: seq<Cell>, h: seq<Cell>, o: nat)
    requires o < |g| == |h| && Others(start, g, o) && h == g[o := h[o]]
    ensures Others(start, h, o)
  {
  }

  lemma OthersSame(g: seq<Cell>, h: seq<Cell>, o: nat)
    requires o < |g| == |h| && h == g[o := h[o]]
    ensures Others(g, h, o)
  {
  }

  lemma OneTarget(p: Ptr)
    ensures Targets([p]) == One(p)
  {
    assert [p][1..] == [];
  }

  /** A slot is cleared, and then filled again. */
  lemma ReplaceSlot(slots: seq<Ptr>, idx: nat, val: Ptr)
    requires idx < |slots|
    ensures Targets(slots[idx := Ptr.Null]) + One(slots[idx]) == Targets(slots)
    ensures Targets(slots[idx := val]) == Targets(slots[idx := Ptr.Null]) + One(val)
    ensures Placed(slots, idx, val) == slots[idx := val]
  {
    hide Targets;
    TargetsUpdate(slots, idx, Ptr.Null);
    TargetsUpdate(slots[idx := Ptr.Null], idx, val);
    assert slots[idx := Ptr.Null][idx := val] == slots[idx := val];
    assert Targets(slots) + One(Ptr.Null) == Targets(slots);
    assert Targets(slots[idx := val]) + One(Ptr.Null) == Targets(slots[idx := val]);
  }

  lemma SlotUpdate(fields: seq<(Text, Ptr)>, i: nat, p: Ptr)
    requires i < |fields|
    ensures Targets(Values(fields[i := (fields[i].0, p)])) + One(fields[i].1) == Targets(Values(fields)) + One(p)
  {
    ValuesAre(fields, i, fields[i].0, p);
    TargetsUpdate(Values(fields), i, p);
  }

  lemma RemoveSlot(fields: seq<(Text, Ptr)>, i: nat)
    requires i < |fields|
    ensures Targets(Values(fields[..i] + fields[i + 1..])) + One(fields[i].1) == Targets(Values(fields))
  {
    hide Targets, Values;
    ValuesSkip(fields, i);
    TargetsSkip(Values(fields), i);
  }

  lemma TargetsSkip(ps: seq<Ptr>, i: nat)
    requires i < |ps|
    ensures Targets(ps[..i] + ps[i + 1..]) + One(ps[i]) == Targets(ps)
  {
    hide Targets, One;
    var a, x, b := ps[..i], [ps[i]], ps[i + 1..];
    TargetsConcat(a, b);
    assert ps == a + (x + b);
    TargetsConcat(a, x + b);
    TargetsConcat(x, b);
    OneTarget(ps[i]);
    Rearrange(Targets(a), One(ps[i]), Targets(b));
  }

  lemma Rearrange(a: multiset<nat>, x: multiset<nat>, b: multiset<nat>)
    ensures a + (x + b) == a + b + x
  {
  }

  lemma {:induction false} WithoutIs(fields: seq<(Text, Ptr)>, key: Text)
    ensures var i := IndexOf(fields, key);
            LinkHash.Without(fields, key) == if i < |fields| then fields[..i] + fields[i + 1..] else fields
  {
    if fields == [] || fields[0].0 == key {
    } else {
      WithoutIs(fields[1..], key);
      assert fields == [fields[0]] + fields[1..];
    }
  }

  /** The slots after array_list_put_idx: the gap behind the old end is filled with NULL. */
  function Placed(slots: seq<Ptr>, idx: nat, val: Ptr): (r: seq<Ptr>)
    ensures |r| == if idx < |slots| then |slots| else idx + 1
  {
    if idx < |slots| then slots[idx := val] else slots + seq(idx - |slots|, _ => Ptr.Null) + [val]
  }

  lemma PlacedTargets(slots: seq<Ptr>, idx: nat, val: Ptr)
    requires idx >= |slots|
    ensures Targets(Placed(slots, idx, val)) == Targets(slots) + One(val)
  {
    hide Targets;
    var gap := seq(idx - |slots|, _ => Ptr.Null);
    TargetsNull(|gap|, gap);
    TargetsConcat(slots, gap);
    TargetsConcat(slots + gap, [val]);
    OneTarget(val);
  }

  lemma {:induction false} HeldSnoc(h: seq<Cell>, c: Cell)
    ensures Held(h + [c]) == Held(h) + CellRefs(c)
  {
    assert IsAddress(|h|);
    assert (h + [c])[..|h|] == h;
  }

  lemma Fresh(h: seq<Cell>, owned: multiset<nat>, body: Body)
    requires Conserved(h, owned) && Targets(Kids(body)) == multiset{}
    ensures Conserved(h + [Obj(1, body)], owned + multiset{|h|})
  {
    hide Held, Targets, Kids;
    HeldSnoc(h, Obj(1, body));
    assert Held(h + [Obj(1, body)]) == Held(h);
    assert |h| !in owned && |h| !in Held(h);
  }

  // ---------------------------------------------------------------- the heap

  class Heap {
    var cells: seq<Cell>
    // The references that callers own, and those that a deletion in progress is releasing.
    ghost var owned: multiset<nat>

    ghost predicate Valid()
      reads this
    {
      Conserved(cells, owned)
    }

    constructor ()
      ensures Valid() && cells == [] && owned == multiset{}
    {
      cells, owned := [], multiset{};
    }

    /** json_object_get */
    method Get(p: Ptr)
      requires Valid() && (p.To? ==> p.at < |cells| && Live(cells[p.at]))
      modifies this
      ensures Valid() && owned == old(owned) + One(p)
      ensures p.To? ==> cells == old(cells)[p.at := Obj(old(cells)[p.at].count + 1, old(cells)[p.at].body)]
      ensures p.Null? ==> cells == old(cells)
    {
      if p.To? {
        GainOne(cells, owned, p.at);
        cells := cells[p.at := Obj(cells[p.at].count + 1, cells[p.at].body)];
        owned := owned + multiset{p.at};
      }
    }

    /**
     json_object_put: one reference is given up. An object whose last reference goes dies, releases
     what it holds, and is freed: exactly the least closed set dies.
     */
    method Put(p: Ptr) returns (freed: bool)
      requires Valid() && One(p) <= owned
      modifies this
      ensures Valid() && owned == old(owned) - One(p)
      ensures Released(old(cells), cells, ANYWHERE)
      ensures forall r: nat :: Died(old(cells), cells, r) <==> r in Least(old(cells), One(p))
      ensures freed == (p.To? && cells[p.at] == Freed)
    {
      hide Conserved, Closed, Released, Least, One;
      ghost var start, before, least := cells, owned, Least(cells, One(p));
      LeastIsClosed(cells, One(p));
      freed := Release(p, One(p), least);
      DiedIsLeast(start, cells, before, p);
      ReleasedAnywhere(start, cells, least);
    }

    /** The recursion of json_object_put, while the references in `released` are being given up. */
    method Release(p: Ptr, ghost released: multiset<nat>, ghost c: iset<nat>) returns (freed: bool)
      requires Valid() && One(p) <= released && released <= owned && Closed(cells, released, c)
      modifies this
      ensures Valid() && owned == old(owned) - One(p)
      ensures Released(old(cells), cells, c) && Closed(cells, released - One(p), c)
      ensures freed == (p.To? && cells[p.at] == Freed)
      decreases LiveCount(cells), 0
    {
      hide Held, HeldBy, Conserved, Closed, Targets, Kids, Released, LiveCount;
      NothingReleased(cells, c);
      if p.Null? {
        assert released - One(p) == released;
        return false;
      }
      var r := p.at;
      OwnedIsLive(cells, owned, r);
      if cells[r].count > 1 {
        LoseOne(cells, owned, r, released, c);
        ReleasedOne(cells, r, c);
        cells := cells[r := Obj(cells[r].count - 1, cells[r].body)];
        owned := owned - multiset{r};
        return false;
      }
      Die(cells, owned, r);
      DieClosed(cells, r, released, c);
      ghost var start := cells;
      cells := cells[r := Obj(0, cells[r].body)];
      LiveFalls(cells, start);
      owned := owned - multiset{r} + Targets(Kids(cells[r].body));
      Delete(r, released - multiset{r}, c);
      assert start[r := Obj(0, start[r].body)][r := Freed] == start[r := Freed];
      ReleasedDead(start, cells, r, c);
      return true;
    }

    /** jso->_delete: the slots of a dead array or object are put in their order, then it is freed. */
    method Delete(r: nat, ghost left: multiset<nat>, ghost c: iset<nat>)
      requires Valid() && r < |cells| && cells[r].Obj? && cells[r].count == 0
      requires var kids := Targets(Kids(cells[r].body));
               left + kids <= owned && Closed(cells, left + kids, c)
      modifies this
      ensures Valid() && owned == old(owned) - Targets(Kids(old(cells)[r].body)) && Closed(cells, left, c)
      ensures |cells| == |old(cells)| && cells[r] == Freed && Released(old(cells)[r := Freed], cells, c)
      decreases LiveCount(cells), 1
    {
      hide Held, HeldBy, Conserved, Closed, Targets, Kids, Released, LiveCount;
      NothingReleased(cells, c);
      var kids := Kids(cells[r].body);
      ghost var start, base := cells, owned - Targets(kids);
      var i := 0;
      assert kids[0..] == kids && base + Targets(kids) == owned;
      while i < |kids|
        invariant i <= |kids| && Valid() && owned == base + Targets(kids[i..]) && left <= base
        invariant Released(start, cells, c)
        invariant Closed(cells, left + Targets(kids[i..]), c)
      {
        TargetsSplit(kids, i);
        TakeAway(left, One(kids[i]), Targets(kids[i + 1..]));
        TakeAway(base, One(kids[i]), Targets(kids[i + 1..]));
        ReleasedLive(start, cells, c);
        ghost var before := cells;
        var _ := Release(kids[i], left + Targets(kids[i..]), c);
        ReleasedOn(start, before, cells, c);
        i := i + 1;
      }
      ReleasedFreed(start, cells, r, c);
      NoTargets(kids[i..]);
      assert left + multiset{} == left;
      Bury(cells, owned, r, left, c);
      cells := cells[r := Freed];
    }

    /** json_object_new and the constructors of the kinds of objects: one reference for the caller. */
    method New(body: Body) returns (p: Ptr)
      requires Valid() && Targets(Kids(body)) == multiset{}
      modifies this
      ensures Valid() && p == To(|old(cells)|) && cells == old(cells) + [Obj(1, body)]
      ensures owned == old(owned) + One(p)
    {
      Fresh(cells, owned, body);
      p := To(|cells|);
      owned := owned + multiset{|cells|};
      cells := cells + [Obj(1, body)];
    }

    /** The reference in one slot becomes the caller's, and the slot is cleared. */
    method TakeOut(r: nat, body: Body, p: Ptr)
      requires Valid() && r < |cells| && Live(cells[r]) && Targets(Kids(body)) + One(p) == Targets(Kids(cells[r].body))
      modifies this
      ensures Valid() && owned == old(owned) + One(p)
      ensures cells == old(cells)[r := Obj(old(cells)[r].count, body)]
    {
      hide Conserved, Targets, Kids;
      var none: multiset<nat> := multiset{};
      assert Targets(Kids(cells[r].body)) + none == Targets(Kids(cells[r].body));
      Move(cells, owned, r, body, none, One(p));
      assert owned - none + One(p) == owned + One(p);
      cells := cells[r := Obj(cells[r].count, body)];
      owned := owned + One(p);
    }

    /** A reference of the caller goes into a container. */
    method PutIn(r: nat, body: Body, p: Ptr)
      requires Valid() && r < |cells| && Live(cells[r]) && One(p) <= owned
      requires Targets(Kids(body)) == Targets(Kids(cells[r].body)) + One(p)
      modifies this
      ensures Valid() && owned == old(owned) - One(p)
      ensures cells == old(cells)[r := Obj(old(cells)[r].count, body)]
    {
      hide Conserved, Targets, Kids;
      var none: multiset<nat> := multiset{};
      assert Targets(Kids(body)) + none == Targets(Kids(body));
      Move(cells, owned, r, body, One(p), none);
      assert owned - One(p) + none == owned - One(p);
      cells := cells[r := Obj(cells[r].count, body)];
      owned := owned - One(p);
    }

    /**
     Putting what a slot of the container `o` held, after the slot was cleared to `body`. The container
     itself dies exactly when it is among the objects that the slot kept alive.
     */
    method Drop(o: nat, body: Body, existing: Ptr)
      requires Valid() && o < |cells| && Live(cells[o])
      requires Targets(Kids(body)) + One(existing) == Targets(Kids(cells[o].body))
      modifies this
      ensures Valid() && owned == old(owned) && |cells| == |old(cells)|
      ensures Live(cells[o]) <==> o !in Doomed(old(cells), o, body, existing)
      ensures Live(cells[o]) ==> cells[o].body == body && Others(old(cells), cells, o)
    {
      hide Conserved, Targets, Kids, Held, HeldBy, Released, Least;
      ghost var start := cells;
      TakeOut(o, body, existing);
      ghost var cleared := cells;
      var _ := Put(existing);
      DropOthers(start, cleared, cells, o);
    }

    /**
     json_object_object_add: the caller's reference to `val` goes into the object. The value of an
     existing key is put and its place is kept. The object may be borrowed: it only has to survive
     that put, after which the source writes into it.
     */
    method ObjectAdd(o: nat, key: Text, val: Ptr)
      requires Valid() && o < |cells| && Live(cells[o]) && cells[o].body.ObjectOf? && One(val) <= owned
      requires var fields := cells[o].body.fields;
               var i := IndexOf(fields, key);
               i < |fields| ==> o !in Doomed(cells, o, ObjectOf(fields[i := (key, Ptr.Null)]), fields[i].1)
      modifies this
      ensures Valid() && owned == old(owned) - One(val) && |cells| == |old(cells)|
      ensures Live(cells[o]) && cells[o].body == ObjectOf(LinkHash.Updated(old(cells)[o].body.fields, key, val))
      ensures Others(old(cells), cells, o)
    {
      hide Conserved, Targets, Values, Held, HeldBy, Others, IndexOf, LinkHash.Updated, LinkHash.Has, Doomed;
      var fields := cells[o].body.fields;
      var i := IndexOf(fields, key);
      UpdatedIs(fields, key, val);
      IndexIsKey(fields, key);
      if i == |fields| {
        ValuesSnoc(fields, key, val);
        TargetsConcat(Values(fields), [val]);
        OneTarget(val);
        PutIn(o, ObjectOf(fields + [(key, val)]), val);
        OthersSame(old(cells), cells, o);
        return;
      }
      var existing := fields[i].1;
      SlotUpdate(fields, i, Ptr.Null);
      SlotUpdate(fields[i := (key, Ptr.Null)], i, val);
      assert fields[i := (key, Ptr.Null)][i := (key, val)] == fields[i := (key, val)];
      ghost var start := cells;
      Drop(o, ObjectOf(fields[i := (key, Ptr.Null)]), existing);
      ghost var dropped := cells;
      PutIn(o, ObjectOf(fields[i := (key, val)]), val);
      OthersOn(start, dropped, cells, o);
    }

    /** json_object_object_del, which also writes into the object after it has put the value. */
    method ObjectDel(o: nat, key: Text)
      requires Valid() && o < |cells| && Live(cells[o]) && cells[o].body.ObjectOf?
      requires var fields := cells[o].body.fields;
               var i := IndexOf(fields, key);
               i < |fields| ==> o !in Doomed(cells, o, ObjectOf(fields[..i] + fields[i + 1..]), fields[i].1)
      modifies this
      ensures Valid() && owned == old(owned) && |cells| == |old(cells)|
      ensures Live(cells[o]) && cells[o].body == ObjectOf(LinkHash.Without(old(cells)[o].body.fields, key))
      ensures Others(old(cells), cells, o)
    {
      hide Conserved, Targets, Values, Held, HeldBy, Others, Doomed;
      var fields := cells[o].body.fields;
      var i := IndexOf(fields, key);
      WithoutIs(fields, key);
      if i == |fields| {
        OthersSame(cells, cells, o);
        return;
      }
      RemoveSlot(fields, i);
      Drop(o, ObjectOf(fields[..i] + fields[i + 1..]), fields[i].1);
    }

    /** array_list_put_idx with the entry function of an array. */
    method ArrayPutIdx(o: nat, idx: nat, val: Ptr)
      requires Valid() && o < |cells| && Live(cells[o]) && cells[o].body.ArrayOf? && One(val) <= owned
      requires var slots := cells[o].body.slots;
               idx < |slots| ==> o !in Doomed(cells, o, ArrayOf(slots[idx := Ptr.Null]), slots[idx])
      modifies this
      ensures Valid() && owned == old(owned) - One(val) && |cells| == |old(cells)|
      ensures Live(cells[o]) && cells[o].body == ArrayOf(Placed(old(cells)[o].body.slots, idx, val))
      ensures Others(old(cells), cells, o)
    {
      hide Conserved, Targets, Held, HeldBy, Others, Placed, Doomed;
      var slots := cells[o].body.slots;
      if idx < |slots| {
        ReplaceSlot(slots, idx, val);
        ghost var start := cells;
        Drop(o, ArrayOf(slots[idx := Ptr.Null]), slots[idx]);
        ghost var dropped := cells;
        PutIn(o, ArrayOf(slots[idx := val]), val);
        OthersOn(start, dropped, cells, o);
      } else {
        PlacedTargets(slots, idx, val);
        PutIn(o, ArrayOf(Placed(slots, idx, val)), val);
        OthersSame(old(cells), cells, o);
      }
    }

    /** array_list_add puts behind the end. */
    method ArrayAdd(o: nat, val: Ptr)
      requires Valid() && o < |cells| && Live(cells[o]) && cells[o].body.ArrayOf? && One(val) <= owned
      modifies this
      ensures Valid() && owned == old(owned) - One(val) && |cells| == |old(cells)|
      ensures Live(cells[o]) && cells[o].body == ArrayOf(old(cells)[o].body.slots + [val])
      ensures Others(old(cells), cells, o)
    {
      var slots := cells[o].body.slots;
      assert slots + [] + [val] == slots + [val];
      ArrayPutIdx(o, |slots|, val);
    }
  }
}

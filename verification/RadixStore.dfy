/** How a radix tree lies in the store of JavaScript `Map` objects, and how the
    updates of single objects make up an insertion or a deletion. */
module RadixStore {
  import opened JsMaps
  import opened RadixTree

  datatype Slot<V> = Leaf(v: V) | Link(ref: Ref)

  type Record<V> = seq<(string, Slot<V>)>
  type Store<V> = map<Ref, Record<V>>

  ghost function Cell<V>(x: Item<V>): Slot<V> {
    match x
    case Val(v) => Leaf(v)
    case Sub(t) => Link(t.ref)
  }

  /** The `Map` object of a node. */
  ghost function Flat<V>(slots: seq<(string, Item<V>)>): (r: Record<V>)
    ensures |r| == |slots|
    ensures forall i :: 0 <= i < |slots| ==> r[i] == (slots[i].0, Cell(slots[i].1))
  {
    if slots == [] then []
    else [(slots[0].0, Cell(slots[0].1))] + Flat(slots[1..])
  }

  /** Every node is in its object, and no object serves two nodes. */
  ghost predicate Rep<V>(store: Store<V>, t: Tree<V>) {
    Stored(store, t) && Unshared(t)
  }

  ghost predicate Stored<V>(store: Store<V>, t: Tree<V>) {
    forall w {:trigger At(t, w)} :: At(t, w).Some? ==>
      At(t, w).value.ref in store && store[At(t, w).value.ref] == Flat(At(t, w).value.slots)
  }

  ghost predicate Unshared<V>(t: Tree<V>) {
    forall w, x {:trigger At(t, w), At(t, x)} ::
      At(t, w).Some? && At(t, x).Some? && At(t, w).value.ref == At(t, x).value.ref ==> w == x
  }

  ghost predicate Below<V>(store: Store<V>, f: Ref) {
    forall r :: r in store ==> r < f
  }

  lemma FlatKeys<V>(slots: seq<(string, Item<V>)>, k: string)
    ensures IndexOf(Flat(slots), k) == IndexOf(slots, k)
    ensures EdgeOf(Flat(slots), k) == EdgeOf(slots, k)
  {
    if slots != [] {
      FlatKeys(slots[1..], k);
      assert Flat(slots)[1..] == Flat(slots[1..]);
    }
  }

  lemma FlatBranch<V>(slots: seq<(string, Item<V>)>, c: char)
    ensures BranchOf(Flat(slots), c) == BranchOf(slots, c)
  {
    if slots != [] {
      FlatBranch(slots[1..], c);
      assert Flat(slots)[1..] == Flat(slots[1..]);
    }
  }

  // ----- insertion -----

  /** Where the first new node of an insertion step hangs. */
  ghost function NewPath<V>(t: Tree<V>, k: string): string {
    if k == "" || Fresh(t, k) then k else k[..Common(t.slots[BranchOf(t.slots, k[0])].0, k)]
  }

  /** New nodes of one insertion step carry fresh references on different paths. */
  lemma NewNodes<V>(t: Tree<V>, k: string, v: V, f: Ref, w: string)
    requires Compressed(t) && !Descends(t, k)
    requires At(t, w) == None && At(Insert(t, k, v, f), w).Some?
    ensures var r := At(Insert(t, k, v, f), w).value.ref;
      || (r == f && w == NewPath(t, k))
      || (r == f + 1 && w == k)
  {
    if k == "" || w[0] != k[0] {
      StepElsewhere(t, k, v, f, w);
    } else if Fresh(t, k) {
      StepFresh(t, k, v, f, w);
    } else {
      var i := BranchOf(t.slots, k[0]);
      var n, c := t.slots[i].0, t.slots[i].1.t;
      CommonOf(n, k);
      BranchAt(t, k[0], w);
      StepForks(t, k, v, f, w);
      ThroughFork(n, k, w);
      var a := Common(n, k);
      ForkAt(f, n[a..], c, k[a..], v, w[a..]);
    }
  }

  lemma InsertNewStep<V>(t: Tree<V>, k: string, v: V, f: Ref, d: nat, w: string)
    requires Compressed(t) && 0 < d <= |k| && At(t, k[..d]).Some?
    requires At(t, w) == None && At(Insert(t, k, v, f), w).Some?
    ensures var i := BranchOf(t.slots, k[0]);
      && i < |t.slots| && t.slots[i].1.Sub?
      && var n, c := t.slots[i].0, t.slots[i].1.t;
      && n != "" && n <= k[..d] && n <= w && Compressed(c) && At(c, w[|n|..]) == None
      && At(c, k[..d][|n|..]) == At(t, k[..d])
      && At(Insert(t, k, v, f), w) == At(Insert(c, k[|n|..], v, f), w[|n|..])
  {
    BranchAt(t, k[0], k[..d]);
    Prefixes(t.slots[BranchOf(t.slots, k[0])].0, k, d);
    StepDescends(t, k, v, f, w);
    BranchAt(t, k[0], w);
  }

  /** All that is new in the tree is new at the node where the key leaves the old paths. */
  lemma {:induction false} InsertNew<V>(t: Tree<V>, k: string, v: V, f: Ref, d: nat, w: string)
    requires Compressed(t) && d <= |k| && At(t, k[..d]).Some?
    requires At(t, w) == None && At(Insert(t, k, v, f), w).Some?
    ensures k[..d] <= w
    ensures At(Insert(t, k, v, f), w) == At(Insert(At(t, k[..d]).value, k[d..], v, f), w[d..])
    decreases d
  {
    if d == 0 {
      assert k[..d] == "" && k[d..] == k && w[d..] == w;
    } else {
      InsertNewStep(t, k, v, f, d, w);
      var i := BranchOf(t.slots, k[0]);
      var n, c := t.slots[i].0, t.slots[i].1.t;
      Prefixes(n, k, d);
      InsertNew(c, k[|n|..], v, f, d - |n|, w[|n|..]);
      PrefixesOf(n, k, d, w);
    }
  }

  lemma PrefixesOf(n: string, k: string, d: nat, w: string)
    requires |n| <= d <= |k| && n <= k && n <= w && k[|n|..][..d - |n|] <= w[|n|..]
    ensures k[..d] <= w && w[|n|..][d - |n|..] == w[d..]
  {
    assert k[..d] == n + k[|n|..][..d - |n|];
    assert w == n + w[|n|..];
  }

  lemma Prefixes(n: string, k: string, d: nat)
    requires d <= |k| && n <= k[..d]
    ensures n <= k && k[..d][|n|..] == k[|n|..][..d - |n|]
    ensures k[|n|..][d - |n|..] == k[d..]
  {
    assert k[..d][..|n|] == k[..|n|];
  }

  /** Above that node the objects stay as they are. */
  lemma FlatAbove<V>(t: Tree<V>, k: string, v: V, f: Ref, x: string)
    requires Compressed(t) && x != "" && x <= k && At(t, x).Some?
    ensures Descends(t, k)
    ensures Flat(Insert(t, k, v, f).slots) == Flat(t.slots)
  {
    BranchAt(t, k[0], x);
    var i := BranchOf(t.slots, k[0]);
    var n, c := t.slots[i].0, t.slots[i].1.t;
    assert n <= k;
    StepDescends(t, k, v, f, x);
    InsertRef(c, k[|n|..], v, f);
  }

  lemma InsertRef<V>(t: Tree<V>, k: string, v: V, f: Ref)
    ensures Insert(t, k, v, f).ref == t.ref
  {
  }

  /** The nodes that an insertion step adds are in the store. */
  ghost predicate NewStored<V>(store: Store<V>, t: Tree<V>, k: string, v: V, f: Ref) {
    forall x {:trigger At(Insert(t, k, v, f), x)} :: At(Insert(t, k, v, f), x).Some? && At(t, x) == None ==>
      var m := At(Insert(t, k, v, f), x).value;
      m.ref in store && store[m.ref] == Flat(m.slots)
  }

  /** Writing the objects of the node where the key leaves the old paths, and of
      the new nodes, turns a store of the tree into one of the larger tree. */
  lemma InsertRep<V>(store: Store<V>, store': Store<V>, t: Tree<V>, k: string, v: V, f: Ref, d: nat)
    requires Rep(store, t) && Compressed(t) && Below(store, f)
    requires d <= |k| && At(t, k[..d]).Some? && !Descends(At(t, k[..d]).value, k[d..])
    requires var cur := At(t, k[..d]).value;
      && (forall r :: r in store && r != cur.ref ==> r in store' && store'[r] == store[r])
      && cur.ref in store' && store'[cur.ref] == Flat(Insert(cur, k[d..], v, f).slots)
      && NewStored(store', cur, k[d..], v, f)
    ensures Rep(store', Insert(t, k, v, f))
  {
    var t' := Insert(t, k, v, f);
    forall w {:trigger At(t', w)} | At(t', w).Some?
      ensures At(t', w).value.ref in store' && store'[At(t', w).value.ref] == Flat(At(t', w).value.slots)
    {
      if At(t, w).Some? {
        InsertRepOld(store, store', t, k, v, f, d, w);
      } else {
        InsertRepNew(t, k, v, f, d, w);
      }
    }
    InsertUnshared(store, t, k, v, f, d);
  }

  lemma InsertUnshared<V>(store: Store<V>, t: Tree<V>, k: string, v: V, f: Ref, d: nat)
    requires Rep(store, t) && Compressed(t) && Below(store, f)
    requires d <= |k| && At(t, k[..d]).Some? && !Descends(At(t, k[..d]).value, k[d..])
    ensures Unshared(Insert(t, k, v, f))
  {
    var t' := Insert(t, k, v, f);
    forall w, x {:trigger At(t', w), At(t', x)} |
      At(t', w).Some? && At(t', x).Some? && At(t', w).value.ref == At(t', x).value.ref
      ensures w == x
    {
      InsertPlace(store, t, k, v, f, d, w);
      InsertPlace(store, t, k, v, f, d, x);
    }
  }

  /** Old nodes keep their reference; new nodes are told apart by theirs. */
  lemma InsertPlace<V>(store: Store<V>, t: Tree<V>, k: string, v: V, f: Ref, d: nat, w: string)
    requires Rep(store, t) && Compressed(t) && Below(store, f)
    requires d <= |k| && At(t, k[..d]).Some? && !Descends(At(t, k[..d]).value, k[d..])
    requires At(Insert(t, k, v, f), w).Some?
    ensures var r := At(Insert(t, k, v, f), w).value.ref;
      || (r < f && At(t, w).Some? && At(t, w).value.ref == r)
      || (r == f && w == k[..d] + NewPath(At(t, k[..d]).value, k[d..]))
      || (r == f + 1 && w == k[..d] + k[d..])
  {
    hide At, Compressed, Insert, Descends, NewPath, Flat;
    if At(t, w).Some? {
      InsertAt(t, k, v, f, w);
      if w <= k { InsertRef(At(t, w).value, k[|w|..], v, f); }
    } else {
      InsertRepNew(t, k, v, f, d, w);
      assert w == k[..d] + w[d..];
    }
  }

  lemma InsertRepNew<V>(t: Tree<V>, k: string, v: V, f: Ref, d: nat, w: string)
    requires Compressed(t)
    requires d <= |k| && At(t, k[..d]).Some? && !Descends(At(t, k[..d]).value, k[d..])
    requires At(t, w) == None && At(Insert(t, k, v, f), w).Some?
    ensures k[..d] <= w
    ensures var cur := At(t, k[..d]).value;
      && At(cur, w[d..]) == None
      && At(Insert(t, k, v, f), w) == At(Insert(cur, k[d..], v, f), w[d..])
      && var r := At(Insert(t, k, v, f), w).value.ref;
      || (r == f && w[d..] == NewPath(cur, k[d..]))
      || (r == f + 1 && w[d..] == k[d..])
  {
    InsertNew(t, k, v, f, d, w);
    NewBelow(t, k, d, w);
    NewNodes(At(t, k[..d]).value, k[d..], v, f, w[d..]);
  }

  lemma NewBelow<V>(t: Tree<V>, k: string, d: nat, w: string)
    requires Compressed(t) && d <= |k| && At(t, k[..d]).Some? && k[..d] <= w && At(t, w) == None
    ensures Compressed(At(t, k[..d]).value) && At(At(t, k[..d]).value, w[d..]) == None
  {
    AtConcat(t, k[..d], w[d..]);
    assert w == k[..d] + w[d..];
  }

  /** The object of an old node after the insertion. */
  lemma InsertRepOld<V>(store: Store<V>, store': Store<V>, t: Tree<V>, k: string, v: V, f: Ref, d: nat, w: string)
    requires Rep(store, t) && Compressed(t)
    requires d <= |k| && At(t, k[..d]).Some? && !Descends(At(t, k[..d]).value, k[d..])
    requires var cur := At(t, k[..d]).value;
      && (forall r :: r in store && r != cur.ref ==> r in store' && store'[r] == store[r])
      && cur.ref in store' && store'[cur.ref] == Flat(Insert(cur, k[d..], v, f).slots)
    requires At(t, w).Some?
    ensures var n := At(Insert(t, k, v, f), w);
      n.Some? && n.value.ref == At(t, w).value.ref && n.value.ref in store' && store'[n.value.ref] == Flat(n.value.slots)
  {
    InsertAt(t, k, v, f, w);
    if w <= k {
      InsertRef(At(t, w).value, k[|w|..], v, f);
      if |w| == d {
        assert w == k[..d];
      } else {
        InsertAboveCut(t, k, v, f, d, w);
      }
    }
  }

  lemma InsertAboveCut<V>(t: Tree<V>, k: string, v: V, f: Ref, d: nat, w: string)
    requires Compressed(t) && w <= k && At(t, w).Some? && |w| != d
    requires d <= |k| && At(t, k[..d]).Some? && !Descends(At(t, k[..d]).value, k[d..])
    ensures Flat(Insert(At(t, w).value, k[|w|..], v, f).slots) == Flat(At(t, w).value.slots)
  {
    hide *;
    if |w| < d {
      assert k[..d] == w + k[|w|..d];
      AtConcat(t, w, k[|w|..d]);
      FlatAbove(At(t, w).value, k[|w|..], v, f, k[|w|..d]);
    } else {
      assert w == k[..d] + w[d..];
      AtConcat(t, k[..d], w[d..]);
      FlatAbove(At(t, k[..d]).value, k[d..], v, f, w[d..]);
    }
  }

  // ----- the four ways a path comes into being -----

  lemma FlatPut<V>(slots: seq<(string, Item<V>)>, k: string, x: Item<V>)
    ensures Flat(Put(slots, k, x)) == Put(Flat(slots), k, Cell(x))
  {
    FlatKeys(slots, k);
  }

  lemma AppendEdge<T>(m: seq<(string, T)>, k: string, x: T)
    requires k != "" && BranchOf(m, k[0]) == |m|
    ensures Put(m, k, x) == m + [(k, x)]
  {
  }

  /** Setting the shorter label and deleting the longer one trades the edge. */
  lemma TradeEdge<T>(m: seq<(string, T)>, i: nat, p: string, x: T)
    requires Siblings(m) && i < |m| && p != "" && p < m[i].0
    ensures Del(Put(m, p, x), m[i].0) == Drop(m, i) + [(p, x)]
  {
    assert p[0] == m[i].0[0];
    assert IndexOf(m, p) == |m|;
    var m' := m + [(p, x)];
    assert m'[i].0 == m[i].0;
    KeyAt(m, i);
    assert IndexOf(m', m[i].0) == i;
    assert Drop(m', i) == Drop(m, i) + [(p, x)];
  }

  /** The key ends at an existing node. */
  lemma EndRep<V>(store: Store<V>, t: Tree<V>, k: string, v: V, f: Ref)
    requires Rep(store, t) && Compressed(t) && Below(store, f) && At(t, k).Some?
    ensures var r := At(t, k).value.ref;
      r in store && Rep(store[r := Put(store[r], "", Leaf(v))], Insert(t, k, v, f))
  {
    var cur := At(t, k).value;
    var store' := store[cur.ref := Put(store[cur.ref], "", Leaf(v))];
    assert k[..|k|] == k && k[|k|..] == "";
    FlatPut(cur.slots, "", Val(v));
    AtConcat(t, k, "");
    forall x {:trigger At(Insert(cur, "", v, f), x)} | At(Insert(cur, "", v, f), x).Some? && At(cur, x) == None
      ensures false
    {
      StepElsewhere(cur, "", v, f, x);
    }
    InsertRep(store, store', t, k, v, f, |k|);
  }

  lemma FlatLeaf<V>(v: V)
    ensures Flat([("", Val(v))]) == [("", Leaf(v))]
  {
  }

  /** A new edge is hung on an existing node. */
  lemma HangRep<V>(store: Store<V>, t: Tree<V>, k: string, v: V, f: Ref, d: nat)
    requires Rep(store, t) && Compressed(t) && Below(store, f) && d <= |k|
    requires At(t, k[..d]).Some? && Fresh(At(t, k[..d]).value, k[d..])
    ensures var r := At(t, k[..d]).value.ref;
      r in store && Rep(store[f := [("", Leaf(v))]][r := Put(store[r], k[d..], Link(f))], Insert(t, k, v, f))
  {
    hide Flat, Lookup, Dense, Kinds, Siblings;
    var cur := At(t, k[..d]).value;
    var store' := store[f := [("", Leaf(v))]][cur.ref := Put(store[cur.ref], k[d..], Link(f))];
    var c := Node(f, [("", Val(v))]);
    AppendEdge(cur.slots, k[d..], Sub(c));
    FlatPut(cur.slots, k[d..], Sub(c));
    FlatLeaf(v);
    AtConcat(t, k[..d], "");
    forall x {:trigger At(Insert(cur, k[d..], v, f), x)} | At(Insert(cur, k[d..], v, f), x).Some? && At(cur, x) == None
      ensures At(Insert(cur, k[d..], v, f), x) == Some(c)
    {
      if x[0] == k[d..][0] { StepFresh(cur, k[d..], v, f, x); } else { StepElsewhere(cur, k[d..], v, f, x); }
    }
    InsertRep(store, store', t, k, v, f, d);
  }

  /** The four objects that tell the store after a fork apart from the one before. */
  ghost predicate ForkedStore<V>(store: Store<V>, store': Store<V>, cur: Tree<V>, q: string, v: V, f: Ref)
    requires Forks(cur, q) && cur.slots[BranchOf(cur.slots, q[0])].1.Sub?
  {
    var i := BranchOf(cur.slots, q[0]);
    var n, c := cur.slots[i].0, cur.slots[i].1.t;
    var a := Common(n, q);
    && (forall r :: r in store && r != cur.ref ==> r in store' && store'[r] == store[r])
    && cur.ref in store' && store'[cur.ref] == Drop(Flat(cur.slots), i) + [(q[..a], Link(f))]
    && f in store' && store'[f] == Put([(n[a..], Link(c.ref))], q[a..], if q[a..] == "" then Leaf(v) else Link(f + 1))
    && (q[a..] != "" ==> f + 1 in store' && store'[f + 1] == [("", Leaf(v))])
  }

  lemma ForkNewStored<V>(store: Store<V>, store': Store<V>, cur: Tree<V>, q: string, v: V, f: Ref)
    requires Compressed(cur) && Forks(cur, q) && ForkedStore(store, store', cur, q, v, f)
    ensures NewStored(store', cur, q, v, f)
    ensures store'[cur.ref] == Flat(Insert(cur, q, v, f).slots)
  {
    var i := BranchOf(cur.slots, q[0]);
    var n, c := cur.slots[i].0, cur.slots[i].1.t;
    var a := Common(n, q);
    CommonOf(n, q);
    ForkFlat(f, n[a..], c, q[a..], v);
    StepForks(cur, q, v, f, q);
    TradeFlat(cur, i, q[..a], Fork(f, n[a..], c, q[a..], v));
    forall x {:trigger At(Insert(cur, q, v, f), x)} | At(Insert(cur, q, v, f), x).Some? && At(cur, x) == None
      ensures var m := At(Insert(cur, q, v, f), x).value; m.ref in store' && store'[m.ref] == Flat(m.slots)
    {
      ForkNew(cur, q, v, f, x);
    }
  }

  /** An edge is split, and the key ends at the new node or hangs off it. */
  lemma ForkRep<V>(store: Store<V>, store': Store<V>, t: Tree<V>, k: string, v: V, f: Ref, d: nat)
    requires Rep(store, t) && Compressed(t) && Below(store, f) && d <= |k|
    requires At(t, k[..d]).Some? && Compressed(At(t, k[..d]).value) && Forks(At(t, k[..d]).value, k[d..])
    requires ForkedStore(store, store', At(t, k[..d]).value, k[d..], v, f)
    ensures Rep(store', Insert(t, k, v, f))
  {
    ForkNewStored(store, store', At(t, k[..d]).value, k[d..], v, f);
    InsertRep(store, store', t, k, v, f, d);
  }

  lemma TradeFlat<V>(t: Tree<V>, i: nat, x: string, c: Tree<V>)
    requires i < |t.slots|
    ensures Flat(Trade(t, i, x, c).slots) == Drop(Flat(t.slots), i) + [(x, Link(c.ref))]
  {
  }

  lemma ForkFlat<V>(f: Ref, n: string, c: Tree<V>, k: string, v: V)
    requires n != "" && (k != "" ==> k[0] != n[0])
    ensures Flat(Fork(f, n, c, k, v).slots) ==
      Put([(n, Link(c.ref))], k, if k == "" then Leaf(v) else Link(f + 1))
    ensures Flat([("", Val(v))]) == [("", Leaf(v))]
  {
  }

  lemma ForkNew<V>(cur: Tree<V>, q: string, v: V, f: Ref, x: string)
    requires Compressed(cur) && Forks(cur, q)
    requires At(Insert(cur, q, v, f), x).Some? && At(cur, x) == None
    ensures var i := BranchOf(cur.slots, q[0]);
      var n, c := cur.slots[i].0, cur.slots[i].1.t;
      var a := Common(n, q);
      var m := At(Insert(cur, q, v, f), x).value;
      || m == Fork(f, n[a..], c, q[a..], v)
      || (q[a..] != "" && m == Node(f + 1, [("", Val(v))]))
  {
    if x[0] != q[0] {
      StepElsewhere(cur, q, v, f, x);
    } else {
      var i := BranchOf(cur.slots, q[0]);
      var n, c := cur.slots[i].0, cur.slots[i].1.t;
      var a := Common(n, q);
      CommonOf(n, q);
      StepForks(cur, q, v, f, x);
      BranchAt(cur, q[0], x);
      ThroughFork(n, q, x);
      ForkAt(f, n[a..], c, q[a..], v, x[a..]);
    }
  }

  // ----- deletion -----

  /** The store after deleting `k`: every object on the way to the key is brought up to
      date, also those that the tree no longer uses, and no other object is touched. */
  ghost predicate Deleted<V>(store: Store<V>, store': Store<V>, t: Tree<V>, k: string) {
    && store'.Keys == store.Keys
    && Deepened(store, store', t, k, 0)
  }

  /** The state of the clean-up when everything at depth `l` or more is done. */
  ghost predicate Deepened<V>(store: Store<V>, store': Store<V>, t: Tree<V>, k: string, l: nat) {
    && (forall w {:trigger At(t, w)} :: w <= k && At(t, w).Some? ==>
          var n := At(t, w).value;
          n.ref in store' && store'[n.ref] == Flat(if |w| >= l then Delete(n, k[|w|..]).slots else n.slots))
    && (forall r :: r in store && (forall w {:trigger At(t, w)} :: w <= k && At(t, w).Some? ==> At(t, w).value.ref != r) ==>
          r in store' && store'[r] == store[r])
  }

  lemma DeleteRep<V>(store: Store<V>, store': Store<V>, t: Tree<V>, k: string)
    requires Rep(store, t) && Compressed(t) && Deleted(store, store', t, k)
    ensures Rep(store', Delete(t, k))
  {
    var t' := Delete(t, k);
    forall w {:trigger At(t', w)} | At(t', w).Some?
      ensures At(t, w).Some? && At(t', w).value.ref == At(t, w).value.ref
      ensures At(t', w).value.ref in store' && store'[At(t', w).value.ref] == Flat(At(t', w).value.slots)
    {
      DeleteAt(t, k, w);
      DeleteRef(At(t, w).value, k[if w <= k then |w| else 0..]);
    }
  }

  lemma DeleteRef<V>(t: Tree<V>, k: string)
    ensures Delete(t, k).ref == t.ref
  {
  }

  /** The objects and labels passed on the way to `w`, as the track-down records them. */
  ghost function Track<V>(t: Tree<V>, w: string): seq<(Ref, string)>
    decreases |w|
  {
    if w == "" then []
    else
      var i := EdgeOf(t.slots, w);
      if i < |t.slots| && t.slots[i].1.Sub? then
        [(t.ref, t.slots[i].0)] + Track(t.slots[i].1.t, w[|t.slots[i].0|..])
      else [(t.ref, w)]
  }

  /** The last step of a track leads from the parent `p` over its edge `i`, labelled `x`. */
  lemma {:induction false} TrackLast<V>(t: Tree<V>, w: string) returns (u: string, p: Tree<V>, i: nat)
    requires Compressed(t) && w != "" && At(t, w).Some?
    ensures At(t, u) == Some(p) && Compressed(p) && (u == "" || Dense(p))
    ensures i < |p.slots| && p.slots[i].0 != "" && u + p.slots[i].0 == w
    ensures p.slots[i].1 == Sub(At(t, w).value)
    ensures Track(t, w) == Track(t, u) + [(p.ref, p.slots[i].0)]
    decreases |w|
  {
    var e := EdgeOf(t.slots, w);
    var n, c := t.slots[e].0, t.slots[e].1.t;
    if n == w {
      u, p, i := "", t, e;
      assert w[|n|..] == "";
    } else {
      u, p, i := TrackLast(c, w[|n|..]);
      TrackStep(t, e, w, u, p.slots[i].0, p.ref);
      assert Dense(p) by { if u == "" { assert p == c; } }
      u := n + u;
    }
  }

  lemma TrackStep<V>(t: Tree<V>, e: nat, w: string, u: string, x: string, r: Ref)
    requires Compressed(t) && e < |t.slots| && t.slots[e].0 != "" && t.slots[e].0 <= w
    requires u + x == w[|t.slots[e].0|..]
    requires Track(t.slots[e].1.t, u + x) == Track(t.slots[e].1.t, u) + [(r, x)]
    ensures t.slots[e].0 + u + x == w
    ensures Track(t, w) == Track(t, t.slots[e].0 + u) + [(r, x)]
    ensures At(t, w) == At(t.slots[e].1.t, u + x) && At(t, t.slots[e].0 + u) == At(t.slots[e].1.t, u)
  {
    var n, c := t.slots[e].0, t.slots[e].1.t;
    TrackDown(t, e, u);
    Rejoin(n, u, x, w);
    assert At(t, w) == At(c, u + x) && Track(t, w) == [(t.ref, n)] + Track(c, u + x) by { TrackDown(t, e, u + x); }
    Associate([(t.ref, n)], Track(c, u), [(r, x)]);
  }

  lemma Rejoin(n: string, u: string, x: string, w: string)
    requires n <= w && u + x == w[|n|..]
    ensures w == n + (u + x) && w == n + u + x
  {
  }

  lemma Associate<T>(a: seq<T>, b: seq<T>, c: seq<T>)
    ensures a + (b + c) == a + b + c
  {
  }

  lemma TrackDown<V>(t: Tree<V>, i: nat, w: string)
    requires Compressed(t) && i < |t.slots| && t.slots[i].0 != ""
    ensures var (n, c) := t.slots[i];
      At(t, n + w) == At(c.t, w) && Track(t, n + w) == [(t.ref, n)] + Track(c.t, w)
  {
    var n := t.slots[i].0;
    EdgeAt(t.slots, i, n + w);
    assert (n + w)[|n|..] == w;
  }

  lemma RefitKept<V>(slots: seq<(string, Item<V>)>, i: nat, c: Tree<V>)
    requires i < |slots| && slots[i].1.Sub? && Dense(c) && c.ref == slots[i].1.t.ref
    ensures Flat(Refit(slots, i, c)) == Flat(slots)
  {
  }

  lemma FlatDense<V>(t: Tree<V>, d: Tree<V>)
    requires Flat(t.slots) == Flat(d.slots) && Dense(t)
    ensures Dense(d)
  {
    assert |Flat(t.slots)| == |Flat(d.slots)|;
    assert Flat(t.slots)[0].0 == Flat(d.slots)[0].0;
  }

  /** When a node on the way is kept, nothing above it changes. */
  lemma {:induction false} KeptAbove<V>(t: Tree<V>, k: string, x: string)
    requires Compressed(t) && x != "" && x <= k && At(t, x).Some? && Dense(Delete(At(t, x).value, k[|x|..]))
    ensures Flat(Delete(t, k).slots) == Flat(t.slots)
    decreases |x|
  {
    var i := EdgeOf(t.slots, x);
    var n, c := t.slots[i].0, t.slots[i].1.t;
    EdgeAt(t.slots, i, k);
    var e := Delete(c, k[|n|..]);
    DeleteRef(c, k[|n|..]);
    if n != x {
      Through(n, k, x);
      KeptAbove(c, k[|n|..], x[|n|..]);
      FlatDense(c, e);
    } else {
      assert x[|n|..] == "";
    }
    RefitKept(t.slots, i, e);
  }
}

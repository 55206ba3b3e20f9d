/** The searchable map: a radix tree of `Map` objects that its methods edit in place. */
module RadixMaps {
  import opened JsMaps
  import opened RadixTree
  import opened RadixStore
  import opened RadixEntries

  /** The finite map a tree stands for. */
  ghost function MapOf<V>(t: Tree<V>): (m: map<string, V>)
    requires Compressed(t)
    ensures forall k :: k in m <==> Lookup(t, k).Some?
    ensures forall k :: k in m ==> m[k] == Lookup(t, k).value
  {
    var es := Entries("", t.slots);
    var ks := set i | 0 <= i < |es| :: es[i].0;
    assert forall k :: k in ks <==> Lookup(t, k).Some? by {
      forall k ensures k in ks <==> Lookup(t, k).Some? {
        if k in ks {
          var i :| 0 <= i < |es| && es[i].0 == k;
          EntriesSound("", t, i);
          assert k[0..] == k;
        }
        if Lookup(t, k).Some? {
          var i := EntriesComplete("", t, k);
          assert "" + k == k;
        }
      }
    }
    map k | k in ks :: Lookup(t, k).value
  }

  function LeafIn<V>(m: Record<V>): Option<V> {
    var i := IndexOf(m, "");
    if i < |m| && m[i].1.Leaf? then Some(m[i].1.v) else None
  }

  lemma LeafFlat<V>(slots: seq<(string, Item<V>)>)
    ensures LeafIn(Flat(slots)) == LeafOf(slots)
  {
    FlatKeys(slots, "");
  }

  class RadixMap<V> {
    var store: Store<V>
    var root: Ref
    var next: Ref
    ghost var tree: Tree<V>

    ghost predicate Valid()
      reads this
    {
      && tree.ref == root && Compressed(tree)
      && Rep(store, tree) && Below(store, next)
    }

    /** The abstract value. */
    ghost function Content(): map<string, V>
      reads this
      requires Valid()
    {
      MapOf(tree)
    }

    constructor ()
      ensures Valid() && Content() == map[]
    {
      store, root, next := map[0 := []], 0, 1;
      tree := Node(0, []);
      new;
      assert forall w :: w != "" ==> At(tree, w) == None;
    }

    /** Look a path up: `at`. */
    method Find(k: string) returns (r: Option<Ref>)
      requires Valid()
      ensures r == match At(tree, k) case None => None case Some(n) => Some(n.ref)
      ensures r.Some? ==> r.value in store
    {
      assert At(tree, "") == Some(tree);
      r := FindFrom(root, k, tree, "");
    }

    method FindFrom(t: Ref, k: string, ghost n: Tree<V>, ghost p: string) returns (r: Option<Ref>)
      requires Valid() && At(tree, p) == Some(n) && n.ref == t && Compressed(n)
      ensures r == match At(n, k) case None => None case Some(m) => Some(m.ref)
      ensures r.Some? ==> r.value in store
      decreases |k|
    {
      if |k| == 0 { return Some(t); }
      var i := EdgeOf(store[t], k);
      FlatKeys(n.slots, k);
      if i < |store[t]| {
        var x := store[t][i].0;
        AtConcat(tree, p, x);
        AtEdge(n, i, x);
        assert x[|x|..] == "";
        r := FindFrom(store[t][i].1.ref, k[|x|..], n.slots[i].1.t, p + x);
      } else {
        r := None;
      }
    }

    method Get(k: string) returns (v: Option<V>)
      requires Valid()
      ensures v == if k in Content() then Some(Content()[k]) else None
    {
      var r := Find(k);
      if r.Some? {
        v := LeafIn(store[r.value]);
        LeafFlat(At(tree, k).value.slots);
      } else {
        v := None;
      }
    }

    /** Walk to the node of `k`, splitting an edge or hanging one up where the path
        does not exist yet: `rt`. The new node is still without a value; `v` is the
        one the caller is going to put there. */
    method CreatePath(k: string, ghost v: V) returns (node: Ref)
      requires Valid()
      modifies this`store, this`next
      ensures node in store && Below(store, next)
      ensures Rep(store[node := Put(store[node], "", Leaf(v))], Insert(tree, k, v, old(next)))
      ensures LeafIn(store[node]) == Lookup(tree, k)
      ensures Lookup(tree, k).Some? ==> store == old(store) && At(tree, k).Some? && node == At(tree, k).value.ref
      ensures OffPath(old(store), store[node := Put(store[node], "", Leaf(v))], tree, k)
    {
      hide *;
      var t, s := root, 0;
      ghost var d, forked := 0, false;
      WalkStart(k);
      while s < |k|
        invariant s <= |k|
        invariant Walking(old(store), tree, k, s, t, store, old(next), next, d, forked)
      {
        WalkHere(old(store), tree, k, s, t, store, old(next), next, d, forked);
        var here := store[t];
        var i := BranchOf(here, k[s]);
        if i == |here| {
          WalkHang(old(store), tree, k, v, s, t, store, old(next), next, d, forked);
          WalkOff(old(store), tree, k, s, t, store, old(next), next, d, forked);
          ghost var before := store;
          node := HangUp(t, k[s..]);
          OffMore(old(store), before, store[node := Put(store[node], "", Leaf(v))], tree, k, t, node);
          return;
        }
        var n := here[i].0;
        var a := MatchLength(k, s, n);
        if a == |n| {
          WalkDown(old(store), tree, k, s, t, store, i, old(next), next, d, forked);
          t := here[i].1.ref;
          d := d + a;
        } else {
          WalkFork(old(store), tree, k, s, t, store, i, a, old(next), next, d, forked);
          t := SplitEdge(t, i, a, k[s..s + a]);
          forked := true;
        }
        s := s + a;
      }
      node := t;
      WalkEnd(old(store), tree, k, v, s, t, store, old(next), next, d, forked);
      WalkOff(old(store), tree, k, s, t, store, old(next), next, d, forked);
      OffMore(old(store), store, store[node := Put(store[node], "", Leaf(v))], tree, k, t, t);
    }

    lemma WalkStart(k: string)
      requires Valid()
      ensures Walking(store, tree, k, 0, root, store, next, next, 0, false)
    {
      assert k[..0] == "";
    }

    /** A new empty object under a new label. */
    method HangUp(t: Ref, x: string) returns (m: Ref)
      requires t in store && t != next
      modifies this`store, this`next
      ensures m == old(next) && next == m + 1
      ensures store == old(store)[m := []][t := Put(old(store)[t], x, Link(m))]
    {
      m := next;
      next := next + 1;
      store := store[m := []];
      store := store[t := Put(store[t], x, Link(m))];
    }

    /** A new object that takes over the lower part of edge `i`, under the shared prefix `x`. */
    method SplitEdge(t: Ref, i: nat, a: nat, x: string) returns (m: Ref)
      requires t in store && t != next && i < |store[t]| && a <= |store[t][i].0|
      modifies this`store, this`next
      ensures m == old(next) && next == m + 1
      ensures var (n, r) := old(store)[t][i];
        store == old(store)[m := [(n[a..], r)]][t := Del(Put(old(store)[t], x, Link(m)), n)]
    {
      var (n, r) := store[t][i];
      m := next;
      next := next + 1;
      store := store[m := [(n[a..], r)]];
      store := store[t := Put(store[t], x, Link(m))];
      store := store[t := Del(store[t], n)];
    }

    lemma AfterInsert(before: Store<V>, old_next: Ref, k: string, v: V)
      requires Compressed(tree) && tree.ref == root && Below(store, next)
      requires Rep(store, Insert(tree, k, v, old_next))
      ensures var t := Insert(tree, k, v, old_next);
        && t.ref == root && Compressed(t) && MapOf(t) == MapOf(tree)[k := v]
    {
      hide *;
      InsertGood(tree, k, v, old_next);
      InsertRef(tree, k, v, old_next);
      forall w ensures Lookup(Insert(tree, k, v, old_next), w) == if w == k then Some(v) else Lookup(tree, w) {
        InsertLookup(tree, k, v, old_next, w);
      }
    }

    /** `new Map`, outside the tree. */
    method NewObject(m: Record<V>)
      requires Valid()
      modifies this`store, this`next
      ensures Valid() && next == old(next) + 1 && store == old(store)[old(next) := m]
    {
      store := store[next := m];
      next := next + 1;
    }

    /** `set(k, v)`. */
    method Set(k: string, v: V)
      requires Valid()
      modifies this
      ensures Valid() && root == old(root)
      ensures Content() == old(Content())[k := v]
      ensures tree == Insert(old(tree), k, v, old(next))
      ensures Lookup(old(tree), k).Some? ==>
        var n := At(old(tree), k);
        n.Some? && n.value.ref in old(store) &&
        store == old(store)[n.value.ref := Put(old(store)[n.value.ref], "", Leaf(v))]
      ensures OffPath(old(store), store, old(tree), k)
    {
      var node := CreatePath(k, v);
      store := store[node := Put(store[node], "", Leaf(v))];
      AfterInsert(old(store), old(next), k, v);
      tree := Insert(tree, k, v, old(next));
    }

    /** `update(k, f)`: the new value is computed from the old one, if any. */
    method Update(k: string, f: Option<V> -> V)
      requires Valid()
      modifies this
      ensures Valid() && root == old(root)
      ensures Content() == old(Content())[k := f(if k in old(Content()) then Some(old(Content())[k]) else None)]
    {
      ghost var v := f(Lookup(tree, k));
      var node := CreatePath(k, v);
      store := store[node := Put(store[node], "", Leaf(f(LeafIn(store[node]))))];
      AfterInsert(old(store), old(next), k, v);
      tree := Insert(tree, k, v, old(next));
    }

    /** `fetch(k, create)`: the old value, or else a new one that is stored. */
    method Fetch(k: string, create: V) returns (v: V)
      requires Valid()
      modifies this
      ensures Valid() && root == old(root)
      ensures v == if k in old(Content()) then old(Content())[k] else create
      ensures Content() == old(Content())[k := v]
    {
      hide MapOf, Compressed, Rep, Insert, Put, At, LeafIn, Lookup;
      MapAt(tree, k);
      var node := CreatePath(k, create);
      var present := LeafIn(store[node]);
      if present.Some? {
        v := present.value;
        PutSame(Content(), k, v);
      } else {
        v := create;
        store := store[node := Put(store[node], "", Leaf(v))];
        AfterInsert(old(store), old(next), k, v);
        tree := Insert(tree, k, v, old(next));
      }
    }

    // ----- deletion -----

    /** Walk down and record the objects and labels passed: `ot`. */
    method TrackDown(t: Ref, k: string, ghost n: Tree<V>, ghost p: string) returns (node: Option<Ref>, path: seq<(Ref, string)>)
      requires Valid() && At(tree, p) == Some(n) && n.ref == t && Compressed(n)
      ensures node == match At(n, k) case None => None case Some(m) => Some(m.ref)
      ensures node.Some? ==> node.value in store
      ensures path == Track(n, k)
      decreases |k|
    {
      if |k| == 0 { return Some(t), []; }
      var i := EdgeOf(store[t], k);
      FlatKeys(n.slots, k);
      if i < |store[t]| {
        var x := store[t][i].0;
        AtConcat(tree, p, x);
        AtLabel(n, i);
        node, path := TrackDown(store[t][i].1.ref, k[|x|..], n.slots[i].1.t, p + x);
        path := [(t, x)] + path;
      } else {
        node, path := None, [(t, k)];
      }
    }

    /** `delete(k)`: take the value away, then tidy the nodes on the way back. */
    method Delete(k: string)
      requires Valid()
      modifies this
      ensures Valid() && root == old(root) && next == old(next)
      ensures Content() == old(Content()) - {k}
      ensures tree == RadixTree.Delete(old(tree), k) && Deleted(old(store), store, old(tree), k)
    {
      DeleteFrom(k);
      AfterDelete(old(store), k);
      tree := RadixTree.Delete(tree, k);
    }

    /** `ht`. */
    method DeleteFrom(k: string)
      requires Valid()
      modifies this`store
      ensures Deleted(old(store), store, tree, k)
    {
      hide *;
      AtRoot();
      var node, path := TrackDown(root, k, tree, "");
      if node.Some? {
        var i := node.value;
        TidyStart(store, tree, k);
        store := store[i := Del(store[i], "")];
        if |store[i]| == 0 {
          CleanUp(path, k, k, old(store));
        } else if |store[i]| == 1 {
          Merge(path, store[i][0].0, store[i][0].1, k, k, old(store));
        } else {
          Settle(old(store), store, tree, k, k);
        }
      } else {
        NothingToDelete(store, tree, k);
      }
    }

    lemma AtRoot()
      requires Valid()
      ensures At(tree, "") == Some(tree) && Compressed(tree) && Rep(store, tree) && tree.ref == root && Below(store, next)
    {
    }

    lemma AfterDelete(before: Store<V>, k: string)
      requires Compressed(tree) && Rep(before, tree) && Below(before, next) && tree.ref == root
      requires Deleted(before, store, tree, k)
      ensures var t := RadixTree.Delete(tree, k);
        && t.ref == root && Compressed(t) && Rep(store, t) && Below(store, next)
        && MapOf(t) == MapOf(tree) - {k}
    {
      hide *;
      DeleteBelow(before, store, tree, k, next);
      DeleteRep(before, store, tree, k);
      DeleteRef(tree, k);
      DeleteCompressed(tree, k);
      forall w ensures Lookup(RadixTree.Delete(tree, k), w) == if w == k then None else Lookup(tree, w) {
        DeleteLookup(tree, k, w);
      }
    }

    /** The parent drops the label of the emptied node at path `w`; if it is itself left
        without need, it is tidied in turn: `lt`. */
    method CleanUp(path: seq<(Ref, string)>, ghost w: string, ghost k: string, ghost before: Store<V>)
      requires Tidying(before, store, tree, k, w) && path == Track(tree, w)
      requires |RadixTree.Delete(At(tree, w).value, k[|w|..]).slots| == 0
      modifies this`store
      ensures Deleted(before, store, tree, k)
      decreases |path|
    {
      hide *;
      if |path| == 0 {
        SettleRoot(before, store, tree, k, w);
        return;
      }
      var (e, x) := path[|path| - 1];
      ghost var u := TidyDrop(before, store, tree, k, w);
      store := store[e := Del(store[e], x)];
      if |store[e]| == 0 {
        CleanUp(path[..|path| - 1], u, k, before);
      } else if |store[e]| == 1 && store[e][0].0 != "" {
        Merge(path[..|path| - 1], store[e][0].0, store[e][0].1, u, k, before);
      } else {
        Settle(before, store, tree, k, u);
      }
    }

    /** The parent of the node at path `w` bypasses it: `ct`. */
    method Merge(path: seq<(Ref, string)>, y: string, cell: Slot<V>, ghost w: string, ghost k: string, ghost before: Store<V>)
      requires Tidying(before, store, tree, k, w) && path == Track(tree, w)
      requires y != "" && Flat(RadixTree.Delete(At(tree, w).value, k[|w|..]).slots) == [(y, cell)]
      modifies this`store
      ensures Deleted(before, store, tree, k)
    {
      hide *;
      if |path| == 0 {
        SettleRoot(before, store, tree, k, w);
        return;
      }
      var (e, x) := path[|path| - 1];
      ghost var u := TidyMerge(before, store, tree, k, w, y, cell);
      store := store[e := Del(Put(store[e], x + y, cell), x)];
      Settle(before, store, tree, k, u);
    }

    /** How many characters of the label fit the key from `s` on. */
    method MatchLength(k: string, s: nat, n: string) returns (a: nat)
      requires s < |k| && n != "" && n[0] == k[s]
      ensures a == Common(n, k[s..])
    {
      var o := if |k| - s <= |n| then |k| - s else |n|;
      a := 1;
      while a < o && k[s + a] == n[a]
        invariant 1 <= a <= o && n[..a] == k[s..s + a]
      {
        a := a + 1;
      }
      CommonIs(n, k[s..], a);
    }
  }

  lemma MapAt<V>(t: Tree<V>, k: string)
    requires Compressed(t)
    ensures k in MapOf(t) <==> Lookup(t, k).Some?
    ensures k in MapOf(t) ==> MapOf(t)[k] == Lookup(t, k).value
  {
  }

  lemma PutSame<V>(m: map<string, V>, k: string, v: V)
    requires k in m && m[k] == v
    ensures m[k := v] == m
  {
  }

  lemma CommonIs(x: string, y: string, a: nat)
    requires a <= |x| && a <= |y| && x[..a] == y[..a]
    requires a < |x| && a < |y| ==> x[a] != y[a]
    ensures Common(x, y) == a
  {
    if a > 0 {
      assert x[0] == x[..a][0] == y[..a][0] == y[0];
      assert x[1..][..a - 1] == x[..a][1..] == y[..a][1..] == y[1..][..a - 1];
      CommonIs(x[1..], y[1..], a - 1);
    }
  }

  // ----- the walk of `CreatePath` -----

  /** `d` characters lead to an old node. Either nothing has changed yet, or the edge
      there that shares the next characters has just been split, and `t` is the new node. */
  ghost predicate Walking<V>(store0: Store<V>, tree: Tree<V>, k: string, s: nat, t: Ref,
                             store: Store<V>, f: Ref, next: Ref, d: nat, forked: bool)
  {
    && d <= s <= |k| && At(tree, k[..d]).Some? && Below(store0, f)
    && Compressed(tree) && Rep(store0, tree) && Compressed(At(tree, k[..d]).value)
    && var cur, q := At(tree, k[..d]).value, k[d..];
    if !forked then s == d && t == cur.ref && store == store0 && next == f
    else
      && Forks(cur, q) && t == f && next == f + 1
      && var i := BranchOf(cur.slots, q[0]);
      var n, c, a := cur.slots[i].0, cur.slots[i].1.t, Common(cur.slots[i].0, q);
      && s == d + a
      && store == store0[f := [(n[a..], Link(c.ref))]][cur.ref := Drop(Flat(cur.slots), i) + [(q[..a], Link(f))]]
  }

  /** Only objects of nodes on the way to the key may have changed. */
  ghost predicate OffPath<V>(store: Store<V>, store': Store<V>, t: Tree<V>, k: string) {
    forall r :: r in store && (forall w {:trigger At(t, w)} :: w <= k && At(t, w).Some? ==> At(t, w).value.ref != r) ==>
      r in store' && store'[r] == store[r]
  }

  /** The object is new, or on the way. */
  ghost predicate OnPath<V>(store: Store<V>, t: Tree<V>, k: string, r: Ref) {
    r in store ==> exists w {:trigger At(t, w)} :: w <= k && At(t, w).Some? && At(t, w).value.ref == r
  }

  lemma WalkOff<V>(store0: Store<V>, tree: Tree<V>, k: string, s: nat, t: Ref,
                   store: Store<V>, f: Ref, next: Ref, d: nat, forked: bool)
    requires Walking(store0, tree, k, s, t, store, f, next, d, forked)
    ensures OffPath(store0, store, tree, k) && OnPath(store0, tree, k, t) && OnPath(store0, tree, k, next)
  {
    hide At, Flat, Compressed, Rep;
    assert k[..d] <= k;
  }

  lemma OffMore<V>(store0: Store<V>, store: Store<V>, store': Store<V>, tree: Tree<V>, k: string, t: Ref, m: Ref)
    requires OffPath(store0, store, tree, k) && OnPath(store0, tree, k, t) && OnPath(store0, tree, k, m)
    requires forall r :: r in store && r != t && r != m ==> r in store' && store'[r] == store[r]
    ensures OffPath(store0, store', tree, k)
  {
    hide At;
  }

  lemma WalkHere<V>(store0: Store<V>, tree: Tree<V>, k: string, s: nat, t: Ref,
                    store: Store<V>, f: Ref, next: Ref, d: nat, forked: bool)
    requires Walking(store0, tree, k, s, t, store, f, next, d, forked)
    ensures t in store && Below(store, next)
    ensures !forked ==> store[t] == Flat(At(tree, k[..d]).value.slots)
    ensures forked && s < |k| ==> BranchOf(store[t], k[s]) == |store[t]|
  {
    var cur, q := At(tree, k[..d]).value, k[d..];
    if forked {
      CommonOf(cur.slots[BranchOf(cur.slots, q[0])].0, q);
    }
  }

  lemma WalkDown<V>(store0: Store<V>, tree: Tree<V>, k: string, s: nat, t: Ref,
                    store: Store<V>, i: nat, f: Ref, next: Ref, d: nat, forked: bool)
    requires Walking(store0, tree, k, s, t, store, f, next, d, forked) && s < |k|
    requires t in store && i == BranchOf(store[t], k[s]) && i < |store[t]|
    requires Common(store[t][i].0, k[s..]) == |store[t][i].0|
    ensures !forked && store[t][i].1.Link?
    ensures var a := |store[t][i].0|;
      s + a <= |k| && Walking(store0, tree, k, s + a, store[t][i].1.ref, store, f, next, d + a, false)
  {
    hide At, Compressed, Rep, Common, Below, Forks, Flat, BranchOf;
    WalkHere(store0, tree, k, s, t, store, f, next, d, forked);
    var cur := At(tree, k[..d]).value;
    FlatBranch(cur.slots, k[s]);
    StepOn(tree, cur, k, d, i);
  }

  lemma StepOn<V>(tree: Tree<V>, cur: Tree<V>, k: string, d: nat, i: nat)
    requires Compressed(tree) && d <= |k| && At(tree, k[..d]) == Some(cur) && Compressed(cur)
    requires i < |cur.slots| && cur.slots[i].0 != "" && cur.slots[i].0 <= k[d..]
    ensures var n := cur.slots[i].0;
      && d + |n| <= |k| && cur.slots[i].1.Sub? && Compressed(cur.slots[i].1.t)
      && At(tree, k[..d + |n|]) == Some(cur.slots[i].1.t)
  {
    hide *;
    AtLabel(cur, i);
    AtConcat(tree, k[..d], cur.slots[i].0);
    TakeMore(k, d, cur.slots[i].0);
  }

  lemma AtLabel<V>(t: Tree<V>, i: nat)
    requires Compressed(t) && i < |t.slots| && t.slots[i].0 != ""
    ensures t.slots[i].1.Sub? && At(t, t.slots[i].0) == Some(t.slots[i].1.t) && Compressed(t.slots[i].1.t)
  {
    AtEdge(t, i, t.slots[i].0);
    assert t.slots[i].0[|t.slots[i].0|..] == "";
  }

  lemma TakeMore(k: string, d: nat, n: string)
    requires d <= |k| && n <= k[d..]
    ensures k[..d] + n == k[..d + |n|]
  {
  }

  lemma WalkFork<V>(store0: Store<V>, tree: Tree<V>, k: string, s: nat, t: Ref,
                    store: Store<V>, i: nat, a: nat, f: Ref, next: Ref, d: nat, forked: bool)
    requires Walking(store0, tree, k, s, t, store, f, next, d, forked) && s < |k|
    requires t in store && i == BranchOf(store[t], k[s]) && i < |store[t]|
    requires a == Common(store[t][i].0, k[s..]) && a != |store[t][i].0|
    ensures !forked && store[t][i].1.Link? && t != next
    ensures var n := store[t][i].0;
      Walking(store0, tree, k, s + a, next,
        store[next := [(n[a..], store[t][i].1)]][t := Del(Put(store[t], k[s..s + a], Link(next)), n)],
        f, next + 1, d, true)
  {
    hide *;
    WalkHere(store0, tree, k, s, t, store, f, next, d, forked);
    BelowNot(store, next, t);
    AtFork(store0, tree, k, s, t, store, i, a, f, next, d, forked);
    ForkRecord(At(tree, k[..s]).value, i, k, s, a, next);
    ForkWalks(store0, tree, k, s, t, i, a, next);
  }

  /** Where an edge has to be split nothing has been split before. */
  lemma AtFork<V>(store0: Store<V>, tree: Tree<V>, k: string, s: nat, t: Ref,
                  store: Store<V>, i: nat, a: nat, f: Ref, next: Ref, d: nat, forked: bool)
    requires Walking(store0, tree, k, s, t, store, f, next, d, forked) && s < |k|
    requires t in store && i == BranchOf(store[t], k[s]) && i < |store[t]|
    requires a == Common(store[t][i].0, k[s..]) && a != |store[t][i].0|
    ensures !forked && d == s && next == f && store == store0 && Below(store0, f) && store[t][i].1.Link?
    ensures Compressed(tree) && Rep(store0, tree) && At(tree, k[..s]).Some?
    ensures var cur := At(tree, k[..s]).value;
      && Compressed(cur) && t == cur.ref && store[t] == Flat(cur.slots) && |store[t]| == |cur.slots|
      && i == BranchOf(cur.slots, k[s]) && store[t][i] == (cur.slots[i].0, Cell(cur.slots[i].1)) && cur.slots[i].1.Sub?
  {
    hide At, Rep, Common, Below, BranchOf, Compressed;
    WalkHere(store0, tree, k, s, t, store, f, next, d, forked);
    FlatBranch(At(tree, k[..d]).value.slots, k[s]);
    BranchIs(store[t], k[s]);
    SiblingsOf(At(tree, k[..d]).value);
  }

  lemma BranchIs<T>(m: seq<(string, T)>, c: char)
    ensures var i := BranchOf(m, c); i < |m| ==> m[i].0 != "" && m[i].0[0] == c
  {
  }

  lemma ForkRecord<V>(cur: Tree<V>, i: nat, k: string, s: nat, a: nat, next: Ref)
    requires Compressed(cur) && s < |k| && i < |cur.slots| && i == BranchOf(cur.slots, k[s])
    requires a == Common(cur.slots[i].0, k[s..]) && a != |cur.slots[i].0|
    ensures s + a <= |k| && k[s..s + a] == k[s..][..a] && 0 < a < |cur.slots[i].0| && !(cur.slots[i].0 <= k[s..])
    ensures Del(Put(Flat(cur.slots), k[s..s + a], Link(next)), cur.slots[i].0) == Drop(Flat(cur.slots), i) + [(k[s..][..a], Link(next))]
  {
    hide Compressed, Flat, Put, Del, Siblings, Drop;
    BranchIs(cur.slots, k[s]);
    CommonOf(cur.slots[i].0, k[s..]);
    SiblingsOf(cur);
    FlatSiblings(cur.slots);
    FlatLabel(cur.slots, i);
    assert k[s..s + a] == k[s..][..a] == cur.slots[i].0[..a];
    TradeEdge(Flat(cur.slots), i, k[s..s + a], Link(next));
  }

  lemma ForkWalks<V>(store0: Store<V>, tree: Tree<V>, k: string, s: nat, t: Ref, i: nat, a: nat, f: Ref)
    requires Compressed(tree) && Rep(store0, tree) && Below(store0, f) && s < |k| && At(tree, k[..s]).Some?
    requires var cur := At(tree, k[..s]).value;
      && Compressed(cur) && t == cur.ref && t in store0 && i < |cur.slots| && i == BranchOf(cur.slots, k[s]) && cur.slots[i].1.Sub?
      && a == Common(cur.slots[i].0, k[s..]) && 0 < a < |cur.slots[i].0| && s + a <= |k| && !(cur.slots[i].0 <= k[s..])
    ensures var cur := At(tree, k[..s]).value;
      var (n, c) := cur.slots[i];
      Walking(store0, tree, k, s + a, f,
        store0[f := [(n[a..], Cell(c))]][t := Drop(Flat(cur.slots), i) + [(k[s..][..a], Link(f))]], f, f + 1, s, true)
  {
    hide At, Compressed, Rep, Common, Below, BranchOf, Drop;
  }

  lemma SiblingsOf<V>(t: Tree<V>)
    requires Compressed(t)
    ensures Siblings(t.slots) && Kinds(t.slots)
  {
  }

  lemma BelowNot<V>(store: Store<V>, next: Ref, t: Ref)
    requires Below(store, next) && t in store
    ensures t != next
  {
  }

  lemma FlatSiblings<V>(slots: seq<(string, Item<V>)>)
    requires Siblings(slots)
    ensures Siblings(Flat(slots))
  {
  }

  /** A key that leaves the old paths at a node has no node. */
  lemma NoNode<V>(tree: Tree<V>, k: string, d: nat)
    requires Compressed(tree) && d <= |k| && At(tree, k[..d]).Some?
    requires var cur := At(tree, k[..d]).value; Fresh(cur, k[d..]) || Forks(cur, k[d..])
    ensures At(tree, k) == None
  {
    var q := k[d..];
    assert k[..d] + q == k;
    AtConcat(tree, k[..d], q);
    BranchAt(At(tree, k[..d]).value, q[0], q);
  }

  lemma WalkHang<V>(store0: Store<V>, tree: Tree<V>, k: string, v: V, s: nat, t: Ref,
                    store: Store<V>, f: Ref, next: Ref, d: nat, forked: bool)
    requires Walking(store0, tree, k, s, t, store, f, next, d, forked) && s < |k|
    requires t in store && BranchOf(store[t], k[s]) == |store[t]|
    ensures t != next && Lookup(tree, k) == None
    ensures var m := next;
      var store' := store[m := []][t := Put(store[t], k[s..], Link(m))];
      Below(store', m + 1) && LeafIn(store'[m]) == None && Rep(store'[m := Put(store'[m], "", Leaf(v))], Insert(tree, k, v, f))
  {
    hide *;
    WalkHere(store0, tree, k, s, t, store, f, next, d, forked);
    NewHangs(store, t, next, k[s..], v);
    WalkNone(store0, tree, k, s, t, store, f, next, d, forked);
    if forked {
      HangForked(store0, tree, k, v, s, t, store, f, next, d);
    } else {
      HangPlain(store0, tree, k, v, s, t, store, f, next, d);
    }
  }

  lemma NewHangs<V>(store: Store<V>, t: Ref, m: Ref, x: string, v: V)
    requires t in store && Below(store, m)
    ensures t != m
    ensures var store' := store[m := []][t := Put(store[t], x, Link(m))];
      && Below(store', m + 1) && LeafIn(store'[m]) == None
      && store'[m := Put(store'[m], "", Leaf(v))] == store[m := [("", Leaf(v))]][t := Put(store[t], x, Link(m))]
  {
    assert Put<Slot<V>>([], "", Leaf(v)) == [("", Leaf(v))];
    hide Put;
  }

  lemma WalkNone<V>(store0: Store<V>, tree: Tree<V>, k: string, s: nat, t: Ref,
                    store: Store<V>, f: Ref, next: Ref, d: nat, forked: bool)
    requires Walking(store0, tree, k, s, t, store, f, next, d, forked) && s < |k|
    requires t in store && BranchOf(store[t], k[s]) == |store[t]|
    ensures Lookup(tree, k) == None
  {
    hide At, Compressed, Rep, Flat, Forks, Common, Below;
    WalkHere(store0, tree, k, s, t, store, f, next, d, forked);
    FlatBranch(At(tree, k[..d]).value.slots, k[s]);
    NoNode(tree, k, d);
  }

  lemma HangPlain<V>(store0: Store<V>, tree: Tree<V>, k: string, v: V, s: nat, t: Ref,
                     store: Store<V>, f: Ref, next: Ref, d: nat)
    requires Walking(store0, tree, k, s, t, store, f, next, d, false) && s < |k|
    requires t in store && BranchOf(store[t], k[s]) == |store[t]|
    ensures Rep(store[next := [("", Leaf(v))]][t := Put(store[t], k[s..], Link(next))], Insert(tree, k, v, f))
  {
    hide At, Compressed, Rep, Flat, Below, Put, Insert;
    WalkHere(store0, tree, k, s, t, store, f, next, d, false);
    FlatBranch(At(tree, k[..d]).value.slots, k[s]);
    HangRep(store0, tree, k, v, f, d);
  }

  lemma ForkedEdge<V>(cur: Tree<V>, q: string)
    requires Compressed(cur) && Forks(cur, q)
    ensures cur.slots[BranchOf(cur.slots, q[0])].1.Sub?
  {
  }

  lemma NodeStored<V>(store: Store<V>, tree: Tree<V>, w: string)
    requires Rep(store, tree) && At(tree, w).Some?
    ensures At(tree, w).value.ref in store
  {
  }

  lemma HangForked<V>(store0: Store<V>, tree: Tree<V>, k: string, v: V, s: nat, t: Ref,
                      store: Store<V>, f: Ref, next: Ref, d: nat)
    requires Walking(store0, tree, k, s, t, store, f, next, d, true) && s < |k|
    ensures t in store
    ensures Rep(store[next := [("", Leaf(v))]][t := Put(store[t], k[s..], Link(next))], Insert(tree, k, v, f))
  {
    hide At, Compressed, Flat, Put, Insert;
    WalkHere(store0, tree, k, s, t, store, f, next, d, true);
    var cur, q := At(tree, k[..d]).value, k[d..];
    ForkedEdge(cur, q);
    var store' := store[next := [("", Leaf(v))]][t := Put(store[t], k[s..], Link(next))];
    assert q[s - d..] == k[s..];
    NodeStored(store0, tree, k[..d]);
    assert ForkedStore(store0, store', cur, q, v, f);
    ForkRep(store0, store', tree, k, v, f, d);
  }

  lemma WalkEnd<V>(store0: Store<V>, tree: Tree<V>, k: string, v: V, s: nat, t: Ref,
                   store: Store<V>, f: Ref, next: Ref, d: nat, forked: bool)
    requires Walking(store0, tree, k, s, t, store, f, next, d, forked) && s == |k|
    ensures t in store && Below(store, next)
    ensures Rep(store[t := Put(store[t], "", Leaf(v))], Insert(tree, k, v, f))
    ensures LeafIn(store[t]) == Lookup(tree, k)
    ensures Lookup(tree, k).Some? ==> store == store0 && At(tree, k).Some? && t == At(tree, k).value.ref
  {
    WalkHere(store0, tree, k, s, t, store, f, next, d, forked);
    var cur, q := At(tree, k[..d]).value, k[d..];
    if forked {
      NoNode(tree, k, d);
      var store' := store[t := Put(store[t], "", Leaf(v))];
      assert q[s - d..] == "";
      assert cur.ref in store0 by { AtConcat(tree, k[..d], ""); }
      assert ForkedStore(store0, store', cur, q, v, f);
      ForkRep(store0, store', tree, k, v, f, d);
    } else {
      assert k[..d] == k;
      EndRep(store, tree, k, v, f);
      LeafFlat(cur.slots);
    }
  }

  // ----- the way back of `Delete` -----

  /** Everything at path `w` and below is done, nothing above is. */
  ghost predicate Tidying<V>(before: Store<V>, store: Store<V>, t: Tree<V>, k: string, w: string) {
    && Compressed(t) && Rep(before, t) && store.Keys == before.Keys
    && w <= k && At(t, w).Some? && Compressed(At(t, w).value)
    && (w == "" || Dense(At(t, w).value))
    && Deepened(before, store, t, k, |w|)
  }

  lemma DenseAt<V>(t: Tree<V>, w: string)
    requires Compressed(t) && At(t, w).Some? && w != ""
    ensures Good(At(t, w).value)
  {
    var u, p, i := TrackLast(t, w);
  }

  lemma DeleteBelow<V>(before: Store<V>, store: Store<V>, t: Tree<V>, k: string, f: Ref)
    requires Deleted(before, store, t, k) && Below(before, f)
    ensures Below(store, f)
  {
    hide Deepened;
  }

  lemma TidyStart<V>(before: Store<V>, t: Tree<V>, k: string)
    requires Compressed(t) && Rep(before, t) && At(t, k).Some?
    ensures var n := At(t, k).value;
      && n.ref in before && k[|k|..] == ""
      && Del(before[n.ref], "") == Flat(Delete(n, k[|k|..]).slots)
      && (|Delete(n, k[|k|..]).slots| == 1 ==> Delete(n, k[|k|..]).slots[0].0 != "")
      && (|Delete(n, k[|k|..]).slots| >= 2 ==> Dense(Delete(n, k[|k|..])))
      && Tidying(before, before[n.ref := Del(before[n.ref], "")], t, k, k)
  {
    var n := At(t, k).value;
    AtConcat(t, k, "");
    if k != "" { DenseAt(t, k); }
    TargetRecord(n);
    TidyFirst(before, t, k);
  }

  lemma TargetRecord<V>(n: Tree<V>)
    requires Compressed(n)
    ensures Del(Flat(n.slots), "") == Flat(Delete(n, "").slots)
    ensures |Delete(n, "").slots| == 1 ==> Delete(n, "").slots[0].0 != ""
  {
    hide Compressed, Flat, Del;
    FlatWithout(n.slots, "");
    DeleteCompressed(n, "");
    LeafAfterDelete(n, "");
    hide Delete;
    NoLeafSlot(Delete(n, ""));
  }

  lemma FlatWithout<V>(slots: seq<(string, Item<V>)>, k: string)
    ensures Del(Flat(slots), k) == Flat(Del(slots, k))
  {
    hide Flat, IndexOf, Drop;
    FlatKeys(slots, k);
    var i := IndexOf(slots, k);
    if i < |slots| { DropFlat(slots, i); }
  }

  lemma NoLeafSlot<V>(n: Tree<V>)
    requires Compressed(n) && LeafOf(n.slots) == None
    ensures |n.slots| == 1 ==> n.slots[0].0 != ""
  {
    if |n.slots| == 1 { KeyAt(n.slots, 0); }
  }

  lemma TidyFirst<V>(before: Store<V>, t: Tree<V>, k: string)
    requires Compressed(t) && Rep(before, t) && At(t, k).Some? && At(t, k).value.ref in before
    requires Del(before[At(t, k).value.ref], "") == Flat(Delete(At(t, k).value, "").slots)
    ensures Deepened(before, before[At(t, k).value.ref := Del(before[At(t, k).value.ref], "")], t, k, |k|)
  {
    hide At, Delete, Compressed, Flat, Del;
    assert k[|k|..] == "";
    assert forall w :: w <= k && |w| >= |k| ==> w == k;
  }

  /** If the last node touched stays, so does everything above it. */
  lemma Settle<V>(before: Store<V>, store: Store<V>, t: Tree<V>, k: string, w: string)
    requires Tidying(before, store, t, k, w) && (w == "" || Dense(Delete(At(t, w).value, k[|w|..])))
    ensures Deleted(before, store, t, k)
  {
    hide At, Delete, Compressed, Flat, Rep, Dense;
    forall u {:trigger At(t, u)} | u <= k && At(t, u).Some? && |u| < |w|
      ensures Flat(Delete(At(t, u).value, k[|u|..]).slots) == Flat(At(t, u).value.slots)
    {
      SettleAbove(t, k, w, u);
    }
  }

  lemma SettleAbove<V>(t: Tree<V>, k: string, w: string, u: string)
    requires Compressed(t) && w <= k && u <= k && |u| < |w| && At(t, w).Some? && At(t, u).Some?
    requires Dense(Delete(At(t, w).value, k[|w|..]))
    ensures Flat(Delete(At(t, u).value, k[|u|..]).slots) == Flat(At(t, u).value.slots)
  {
    hide *;
    var x := w[|u|..];
    assert w == u + x;
    AtConcat(t, u, x);
    assert k[|u|..][|x|..] == k[|w|..];
    assert x <= k[|u|..];
    KeptAbove(At(t, u).value, k[|u|..], x);
  }

  lemma SettleRoot<V>(before: Store<V>, store: Store<V>, t: Tree<V>, k: string, w: string)
    requires Tidying(before, store, t, k, w) && |Track(t, w)| == 0
    ensures Deleted(before, store, t, k)
  {
    assert w == "";
  }

  lemma NothingToDelete<V>(store: Store<V>, t: Tree<V>, k: string)
    requires Compressed(t) && Rep(store, t) && At(t, k) == None
    ensures Deleted(store, store, t, k)
  {
    forall w {:trigger At(t, w)} | w <= k && At(t, w).Some?
      ensures Delete(At(t, w).value, k[|w|..]) == At(t, w).value
    {
      assert k == w + k[|w|..];
      AtConcat(t, w, k[|w|..]);
      DeleteAbsent(At(t, w).value, k[|w|..]);
    }
  }

  /** One level up: the record of the parent becomes what the deletion makes of it. */
  lemma TidyUp<V>(before: Store<V>, store: Store<V>, t: Tree<V>, k: string, w: string, u: string, p: Tree<V>, i: nat, rec: Record<V>)
    requires Tidying(before, store, t, k, w) && w != ""
    requires At(t, u) == Some(p) && Compressed(p) && (u == "" || Dense(p)) && i < |p.slots| && p.slots[i].0 != ""
    requires u + p.slots[i].0 == w && p.slots[i].1 == Sub(At(t, w).value)
    requires rec == Flat(Refit(p.slots, i, Delete(At(t, w).value, k[|w|..])))
    ensures p.ref in store && store[p.ref] == Flat(p.slots)
    ensures Delete(p, k[|u|..]).slots == Refit(p.slots, i, Delete(At(t, w).value, k[|w|..]))
    ensures Tidying(before, store[p.ref := rec], t, k, u)
  {
    hide At, Delete, Compressed, Flat, Dense, Refit, Kinds, Siblings, EdgeOf, IndexOf, Deepened, Unshared;
    UpRecord(t, k, w, u, p, i);
    DeleteRef(p, k[|u|..]);
    Above(before, store, t, k, w, u);
    UpDeepened(before, store, t, k, w, u, p, i, rec);
  }

  /** What is above has not been touched yet. */
  lemma Above<V>(before: Store<V>, store: Store<V>, t: Tree<V>, k: string, w: string, u: string)
    requires Deepened(before, store, t, k, |w|) && u <= k && |u| < |w| && At(t, u).Some?
    ensures At(t, u).value.ref in store && store[At(t, u).value.ref] == Flat(At(t, u).value.slots)
  {
    hide At, Delete, Flat;
  }

  lemma UpDeepened<V>(before: Store<V>, store: Store<V>, t: Tree<V>, k: string, w: string, u: string, p: Tree<V>, i: nat, rec: Record<V>)
    requires Compressed(t) && Unshared(t) && Deepened(before, store, t, k, |w|)
    requires At(t, u) == Some(p) && Compressed(p) && i < |p.slots| && p.slots[i].0 != "" && u + p.slots[i].0 == w && w <= k
    requires rec == Flat(Delete(p, k[|u|..]).slots)
    ensures Deepened(before, store[p.ref := rec], t, k, |u|)
  {
    hide At, Delete, Compressed, Flat, Kinds, Siblings;
    forall v {:trigger At(t, v)} | v <= k && At(t, v).Some? && |u| <= |v| < |w|
      ensures v == u
    {
      Between(t, u, p, i, k, v);
    }
  }

  lemma UpRecord<V>(t: Tree<V>, k: string, w: string, u: string, p: Tree<V>, i: nat)
    requires Compressed(p) && w <= k && At(t, w).Some?
    requires i < |p.slots| && p.slots[i].0 != "" && u + p.slots[i].0 == w && p.slots[i].1 == Sub(At(t, w).value)
    ensures u <= k && Delete(p, k[|u|..]).slots == Refit(p.slots, i, Delete(At(t, w).value, k[|w|..]))
  {
    hide At;
    assert p.slots[i].0 <= k[|u|..];
    EdgeAt(p.slots, i, k[|u|..]);
    assert k[|u|..][|p.slots[i].0|..] == k[|w|..];
  }

  /** No node lies inside an edge. */
  lemma Between<V>(t: Tree<V>, u: string, p: Tree<V>, i: nat, k: string, v: string)
    requires Compressed(t) && At(t, u) == Some(p) && Compressed(p) && i < |p.slots| && p.slots[i].0 != ""
    requires u + p.slots[i].0 <= k && v <= k && At(t, v).Some? && |u| <= |v| < |u + p.slots[i].0|
    ensures v == u
  {
    var x := v[|u|..];
    assert v == u + x;
    AtConcat(t, u, x);
    if x != "" {
      InsideEdge(p, i, x);
    }
  }

  lemma InsideEdge<V>(p: Tree<V>, i: nat, x: string)
    requires Compressed(p) && i < |p.slots| && x != "" && x < p.slots[i].0
    ensures At(p, x) == None
  {
    var e := EdgeOf(p.slots, x);
    assert x[0] == p.slots[i].0[0];
  }

  lemma TidyDrop<V>(before: Store<V>, store: Store<V>, t: Tree<V>, k: string, w: string) returns (u: string)
    requires Tidying(before, store, t, k, w) && |Track(t, w)| > 0
    requires |Delete(At(t, w).value, k[|w|..]).slots| == 0
    ensures var (e, x) := Track(t, w)[|Track(t, w)| - 1];
      && e in store
      && Track(t, u) == Track(t, w)[..|Track(t, w)| - 1]
      && var store' := store[e := Del(store[e], x)];
      && Tidying(before, store', t, k, u)
      && store'[e] == Flat(Delete(At(t, u).value, k[|u|..]).slots)
      && (|store'[e]| > 0 && !(|store'[e]| == 1 && store'[e][0].0 != "") ==> Dense(Delete(At(t, u).value, k[|u|..])))
  {
    var p, i;
    assert w != "";
    u, p, i := TrackLast(t, w);
    TidyUp(before, store, t, k, w, u, p, i, Flat(Refit(p.slots, i, Delete(At(t, w).value, k[|w|..]))));
    FlatDrop(p.slots, i);
    TidyDense(Delete(p, k[|u|..]));
  }

  lemma TidyDense<V>(t: Tree<V>)
    ensures |Flat(t.slots)| > 0 && !(|Flat(t.slots)| == 1 && Flat(t.slots)[0].0 != "") ==> Dense(t)
  {
  }

  lemma FlatDrop<V>(slots: seq<(string, Item<V>)>, i: nat)
    requires Siblings(slots) && i < |slots|
    ensures Flat(Drop(slots, i)) == Drop(Flat(slots), i) == Del(Flat(slots), slots[i].0)
  {
    hide *;
    KeyAt(slots, i);
    FlatKeys(slots, slots[i].0);
    DropFlat(slots, i);
    DelAt(Flat(slots), i);
  }

  lemma DropFlat<V>(slots: seq<(string, Item<V>)>, i: nat)
    requires i < |slots|
    ensures Flat(Drop(slots, i)) == Drop(Flat(slots), i)
  {
    hide Flat, IndexOf;
    var a, b := Flat(Drop(slots, i)), Drop(Flat(slots), i);
    forall j | 0 <= j < |a| ensures a[j] == b[j] {
      var j' := if j < i then j else j + 1;
      assert Flat(slots)[j'] == (slots[j'].0, Cell(slots[j'].1));
      assert b[j] == Flat(slots)[j'] && Drop(slots, i)[j] == slots[j'];
    }
  }

  lemma DelAt<T>(m: seq<(string, T)>, i: nat)
    requires i < |m| && IndexOf(m, m[i].0) == i
    ensures Del(m, m[i].0) == Drop(m, i)
  {
  }

  lemma TidyMerge<V>(before: Store<V>, store: Store<V>, t: Tree<V>, k: string, w: string, y: string, cell: Slot<V>) returns (u: string)
    requires Tidying(before, store, t, k, w) && |Track(t, w)| > 0
    requires y != "" && Flat(Delete(At(t, w).value, k[|w|..]).slots) == [(y, cell)]
    ensures var (e, x) := Track(t, w)[|Track(t, w)| - 1];
      && e in store
      && Tidying(before, store[e := Del(Put(store[e], x + y, cell), x)], t, k, u)
      && (u == "" || Dense(Delete(At(t, u).value, k[|u|..])))
  {
    hide At, Delete, Compressed, Flat, Refit, Rep, Deepened, Kinds, Siblings;
    var p, i;
    assert w != "";
    u, p, i := TrackLast(t, w);
    var c := Delete(At(t, w).value, k[|w|..]);
    SingleEdge(c, y, cell);
    TidyUp(before, store, t, k, w, u, p, i, Flat(Refit(p.slots, i, c)));
    MergeRecord(p, i, c, y, cell);
    MergeDense(p, Delete(p, k[|u|..]), i, c);
  }

  lemma MergeRecord<V>(p: Tree<V>, i: nat, c: Tree<V>, y: string, cell: Slot<V>)
    requires Compressed(p) && i < |p.slots| && p.slots[i].0 != "" && y != ""
    requires |c.slots| == 1 && c.slots[0].0 == y && Cell(c.slots[0].1) == cell
    ensures Flat(Refit(p.slots, i, c)) == Del(Put(Flat(p.slots), p.slots[i].0 + y, cell), p.slots[i].0)
  {
    FlatMerge(p.slots, i, y, c.slots[0].1);
  }

  lemma MergeDense<V>(p: Tree<V>, d: Tree<V>, i: nat, c: Tree<V>)
    requires i < |p.slots| && p.slots[i].0 != "" && |c.slots| == 1 && c.slots[0].0 != "" && d.slots == Refit(p.slots, i, c)
    ensures Dense(p) ==> Dense(d)
  {
  }

  lemma SingleEdge<V>(c: Tree<V>, y: string, cell: Slot<V>)
    requires Flat(c.slots) == [(y, cell)]
    ensures |c.slots| == 1 && c.slots[0].0 == y && Cell(c.slots[0].1) == cell
  {
    assert |Flat(c.slots)| == 1;
    assert Flat(c.slots)[0] == (y, cell);
  }

  lemma FlatMerge<V>(slots: seq<(string, Item<V>)>, i: nat, y: string, c: Item<V>)
    requires Siblings(slots) && i < |slots| && slots[i].0 != "" && y != ""
    ensures Flat(Drop(slots, i) + [(slots[i].0 + y, c)]) == Del(Put(Flat(slots), slots[i].0 + y, Cell(c)), slots[i].0)
  {
    hide *;
    FlatSiblings(slots);
    FlatLabel(slots, i);
    DropFlat(slots, i);
    FlatSnoc(Drop(slots, i), slots[i].0 + y, c);
    MergeEdge(Flat(slots), i, slots[i].0 + y, Cell(c));
  }

  lemma FlatLabel<V>(slots: seq<(string, Item<V>)>, i: nat)
    requires i < |slots|
    ensures |Flat(slots)| == |slots| && Flat(slots)[i].0 == slots[i].0
  {
  }

  lemma FlatSnoc<V>(slots: seq<(string, Item<V>)>, x: string, c: Item<V>)
    ensures Flat(slots + [(x, c)]) == Flat(slots) + [(x, Cell(c))]
  {
    hide *;
    var a, b := Flat(slots + [(x, c)]), Flat(slots) + [(x, Cell(c))];
    assert |a| == |b|;
    forall j | 0 <= j < |a| ensures a[j] == b[j] {
    }
  }

  /** Setting the longer label and deleting the shorter one trades the edge. */
  lemma MergeEdge<T>(m: seq<(string, T)>, i: nat, p: string, x: T)
    requires Siblings(m) && i < |m| && m[i].0 != "" && m[i].0 < p
    ensures Del(Put(m, p, x), m[i].0) == Drop(m, i) + [(p, x)]
  {
    assert p[0] == m[i].0[0];
    KeyAt(m, i);
    NewKey(m, i, p);
    var m' := m + [(p, x)];
    NewKey(m', i, m[i].0);
    assert Drop(m', i) == Drop(m, i) + [(p, x)];
  }

  lemma NewKey<T>(m: seq<(string, T)>, i: nat, p: string)
    requires i < |m| && m[i].0 != ""
    requires forall j :: 0 <= j < i ==> m[j].0 != m[i].0
    requires forall j :: 0 <= j < |m| && j != i && m[j].0 != "" && p != "" && p != m[i].0 ==> m[j].0[0] != p[0]
    ensures p == m[i].0 ==> IndexOf(m, p) == i
    ensures p != "" && p != m[i].0 ==> IndexOf(m, p) == |m|
  {
  }
}

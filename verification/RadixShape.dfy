/** The tree has no history: its shape, up to the order of edges, is determined by
    the map it stands for. */
module RadixShape {
  import opened JsMaps
  import opened RadixTree
  import opened RadixMaps

  ghost predicate HasEdge<V>(t: Tree<V>, n: string) {
    exists i :: 0 <= i < |t.slots| && t.slots[i].0 == n && t.slots[i].1.Sub?
  }

  /** Same value, same labels, and the same below every label. */
  ghost predicate SameShape<V>(t: Tree<V>, u: Tree<V>) {
    && LeafOf(t.slots) == LeafOf(u.slots)
    && (forall j :: 0 <= j < |u.slots| && u.slots[j].1.Sub? ==> HasEdge(t, u.slots[j].0))
    && (forall i :: 0 <= i < |t.slots| && t.slots[i].1.Sub? ==>
          exists j :: 0 <= j < |u.slots| && u.slots[j].0 == t.slots[i].0 && u.slots[j].1.Sub? &&
                      SameShape(t.slots[i].1.t, u.slots[j].1.t))
  }

  ghost predicate SameMap<V>(t: Tree<V>, u: Tree<V>) {
    forall k {:trigger Lookup(t, k)} {:trigger Lookup(u, k)} :: Lookup(t, k) == Lookup(u, k)
  }

  lemma LookupBelow<V>(t: Tree<V>, i: nat, x: string)
    requires Compressed(t) && i < |t.slots| && t.slots[i].0 != ""
    ensures Lookup(t, t.slots[i].0 + x) == Lookup(t.slots[i].1.t, x)
  {
    AtEdge(t, i, t.slots[i].0 + x);
    assert (t.slots[i].0 + x)[|t.slots[i].0|..] == x;
  }

  /** A node below the root has a key under it, */
  lemma {:induction false} SomeKey<V>(t: Tree<V>) returns (x: string)
    requires Good(t)
    ensures Lookup(t, x).Some?
  {
    if t.slots[0].0 == "" {
      x := "";
      KeyAt(t.slots, 0);
    } else {
      x := SomeKey(t.slots[0].1.t);
      LookupBelow(t, 0, x);
      x := t.slots[0].0 + x;
    }
  }

  /** and its keys share no first character. */
  lemma Spread<V>(t: Tree<V>, z: string) returns (x: string)
    requires Good(t) && z != ""
    ensures Lookup(t, x).Some? && !(z <= x)
  {
    var i := if t.slots[0].0 != "" && t.slots[0].0[0] == z[0] then 1 else 0;
    if t.slots[i].0 == "" {
      x := "";
      KeyAt(t.slots, i);
    } else {
      x := SomeKey(t.slots[i].1.t);
      LookupBelow(t, i, x);
      x := t.slots[i].0 + x;
      assert x[0] == t.slots[i].0[0];
    }
  }

  /** Keys that share their first character with an edge lie under it. */
  lemma OneEdge<V>(t: Tree<V>, i: nat, k: string)
    requires Compressed(t) && i < |t.slots| && t.slots[i].0 != ""
    requires k != "" && k[0] == t.slots[i].0[0] && Lookup(t, k).Some?
    ensures t.slots[i].0 <= k
  {
    var j := EdgeOf(t.slots, k);
    assert t.slots[j].0[0] == k[0];
  }

  lemma Strip(m: string, n: string, y: string)
    requires m <= n + y && |n| <= |m|
    ensures m[|n|..] <= y
  {
    assert (n + y)[|n|..] == y;
  }

  /** The edge `i` of `t` starts an edge of `u` whose label is not longer. */
  lemma NotLonger<V>(t: Tree<V>, u: Tree<V>, i: nat) returns (j: nat)
    requires Compressed(t) && Compressed(u) && SameMap(t, u)
    requires i < |t.slots| && t.slots[i].0 != ""
    ensures j < |u.slots| && u.slots[j].0 != "" && u.slots[j].0 <= t.slots[i].0
  {
    var (n, c) := t.slots[i];
    var x := SomeKey(c.t);
    LookupBelow(t, i, x);
    assert Lookup(u, n + x).Some?;
    j := EdgeOf(u.slots, n + x);
    var m := u.slots[j].0;
    if |m| > |n| {
      assert m[..|n|] == (n + x)[..|n|] == n;
      var y := Spread(c.t, m[|n|..]);
      LookupBelow(t, i, y);
      OneEdge(u, j, n + y);
      Strip(m, n, y);
      assert false;
    }
    assert m == (n + x)[..|m|] == n[..|m|];
  }

  lemma SameEdges<V>(t: Tree<V>, u: Tree<V>, i: nat) returns (j: nat)
    requires Compressed(t) && Compressed(u) && SameMap(t, u)
    requires i < |t.slots| && t.slots[i].0 != ""
    ensures j < |u.slots| && u.slots[j].0 == t.slots[i].0 && u.slots[j].1.Sub?
    ensures SameMap(t.slots[i].1.t, u.slots[j].1.t)
  {
    j := NotLonger(t, u, i);
    var i' := NotLonger(u, t, j);
    assert t.slots[i'].0[0] == t.slots[i].0[0];
    assert i' == i;
    assert t.slots[i].0 == u.slots[j].0;
    SameBelow(t, u, i, j);
  }

  lemma SameBelow<V>(t: Tree<V>, u: Tree<V>, i: nat, j: nat)
    requires Compressed(t) && Compressed(u) && SameMap(t, u)
    requires i < |t.slots| && j < |u.slots| && t.slots[i].0 == u.slots[j].0 != ""
    ensures SameMap(t.slots[i].1.t, u.slots[j].1.t)
  {
    var n := t.slots[i].0;
    forall y {:trigger Lookup(t.slots[i].1.t, y)} {:trigger Lookup(u.slots[j].1.t, y)}
      ensures Lookup(t.slots[i].1.t, y) == Lookup(u.slots[j].1.t, y)
    {
      LookupBelow(t, i, y);
      LookupBelow(u, j, y);
      assert Lookup(t, n + y) == Lookup(u, n + y);
    }
  }

  /** Two compressed trees that stand for the same map have the same shape. */
  lemma {:induction false} NoHistory<V>(t: Tree<V>, u: Tree<V>)
    requires Compressed(t) && Compressed(u) && SameMap(t, u)
    ensures SameShape(t, u)
    decreases t
  {
    assert Lookup(t, "") == Lookup(u, "");
    forall j | 0 <= j < |u.slots| && u.slots[j].1.Sub?
      ensures HasEdge(t, u.slots[j].0)
    {
      var i := SameEdges(u, t, j);
    }
    forall i | 0 <= i < |t.slots| && t.slots[i].1.Sub?
      ensures exists j :: 0 <= j < |u.slots| && u.slots[j].0 == t.slots[i].0 && u.slots[j].1.Sub? &&
                          SameShape(t.slots[i].1.t, u.slots[j].1.t)
    {
      var j := SameEdges(t, u, i);
      NoHistory(t.slots[i].1.t, u.slots[j].1.t);
    }
  }

  /** Setting a fresh key and deleting it again restores the shape. */
  lemma SetThenDelete<V>(t: Tree<V>, k: string, v: V, f: Ref)
    requires Compressed(t) && Lookup(t, k) == None
    ensures SameShape(Delete(Insert(t, k, v, f), k), t)
  {
    var t1 := Insert(t, k, v, f);
    var t2 := Delete(t1, k);
    InsertGood(t, k, v, f);
    DeleteCompressed(t1, k);
    forall w {:trigger Lookup(t2, w)} {:trigger Lookup(t, w)}
      ensures Lookup(t2, w) == Lookup(t, w)
    {
      DeleteLookup(t1, k, w);
      InsertLookup(t, k, v, f, w);
    }
    NoHistory(t2, t);
  }

  /** However two maps have come to hold the same entries, their trees have the same shape. */
  lemma SameContent<V>(m: RadixMap<V>, n: RadixMap<V>)
    requires m.Valid() && n.Valid() && m.Content() == n.Content()
    ensures SameShape(m.tree, n.tree)
  {
    hide Compressed, Lookup, MapOf;
    forall k {:trigger Lookup(m.tree, k)} {:trigger Lookup(n.tree, k)}
      ensures Lookup(m.tree, k) == Lookup(n.tree, k)
    {
      MapAt(m.tree, k);
      MapAt(n.tree, k);
    }
    NoHistory(m.tree, n.tree);
  }
}

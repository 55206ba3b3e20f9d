/** The compressed radix tree as a value. `ref` is the identity of the
    JavaScript `Map` object that holds the node, so a tree also says where each
    node lives; RadixMap.dfy ties it to the store those objects live in. */
module RadixTree {
  import opened JsMaps

  type Ref = nat

  datatype Item<V> = Val(v: V) | Sub(t: Tree<V>)

  datatype Tree<V> = Node(ref: Ref, slots: seq<(string, Item<V>)>)

  // ----- meaning -----

  /** The node whose path from `t` spells exactly `w`. */
  ghost function At<V>(t: Tree<V>, w: string): Option<Tree<V>>
    decreases |w|
  {
    if w == "" then Some(t)
    else
      var i := EdgeOf(t.slots, w);
      if i < |t.slots| && t.slots[i].1.Sub? then At(t.slots[i].1.t, w[|t.slots[i].0|..]) else None
  }

  /** The value stored in the node itself. */
  ghost function LeafOf<V>(slots: seq<(string, Item<V>)>): Option<V> {
    var i := IndexOf(slots, "");
    if i < |slots| && slots[i].1.Val? then Some(slots[i].1.v) else None
  }

  /** The finite map a tree stands for, as a partial function on keys. */
  ghost function Lookup<V>(t: Tree<V>, k: string): Option<V> {
    match At(t, k)
    case None => None
    case Some(n) => LeafOf(n.slots)
  }

  // ----- compressed form -----

  /** A node below the root earns its place: it carries a value or branches. */
  ghost predicate Dense<V>(t: Tree<V>) {
    |t.slots| >= 2 || (|t.slots| == 1 && t.slots[0].0 == "")
  }

  ghost predicate Kinds<V>(slots: seq<(string, Item<V>)>) {
    forall i :: 0 <= i < |slots| ==> (slots[i].0 == "" <==> slots[i].1.Val?)
  }

  ghost predicate Compressed<V>(t: Tree<V>) {
    && Kinds(t.slots)
    && Siblings(t.slots)
    && forall i :: 0 <= i < |t.slots| && t.slots[i].1.Sub? ==>
         Dense(t.slots[i].1.t) && Compressed(t.slots[i].1.t)
  }

  lemma AtEdge<V>(t: Tree<V>, i: nat, w: string)
    requires Kinds(t.slots) && Siblings(t.slots)
    requires i < |t.slots| && t.slots[i].0 != "" && t.slots[i].0 <= w
    ensures At(t, w) == At(t.slots[i].1.t, w[|t.slots[i].0|..])
  {
    EdgeAt(t.slots, i, w);
  }

  lemma NoEdge<V>(t: Tree<V>, i: nat, w: string)
    requires Kinds(t.slots) && Siblings(t.slots)
    requires i < |t.slots| && t.slots[i].0 != "" && w != "" && w[0] == t.slots[i].0[0] && !(t.slots[i].0 <= w)
    ensures At(t, w) == None
  {
  }

  lemma CompressedEdges<V>(t: Tree<V>)
    requires Compressed(t)
    ensures Kinds(t.slots) && Siblings(t.slots)
  {
  }

  /** Paths compose. */
  lemma {:induction false} AtConcat<V>(t: Tree<V>, w: string, x: string)
    requires Compressed(t) && At(t, w).Some?
    ensures Compressed(At(t, w).value)
    ensures At(t, w + x) == At(At(t, w).value, x)
    decreases |w|
  {
    hide Dense, Siblings, Kinds;
    if w == "" {
      assert w + x == x;
    } else {
      var i := EdgeOf(t.slots, w);
      var n := t.slots[i].0;
      assert n <= w + x && (w + x)[|n|..] == w[|n|..] + x;
      AtEdge(t, i, w + x);
      AtConcat(t.slots[i].1.t, w[|n|..], x);
    }
  }

  // ----- insertion -----

  /** Give edge `i` another lower end. */
  ghost function Replace<V>(t: Tree<V>, i: nat, c: Tree<V>): Tree<V>
    requires i < |t.slots|
  {
    t.(slots := t.slots[i := (t.slots[i].0, Sub(c))])
  }

  /** Hang a new edge on a node. */
  ghost function Hang<V>(t: Tree<V>, x: string, c: Tree<V>): Tree<V> {
    t.(slots := t.slots + [(x, Sub(c))])
  }

  /** Trade edge `i` for a new one, which goes to the end. */
  ghost function Trade<V>(t: Tree<V>, i: nat, x: string, c: Tree<V>): Tree<V>
    requires i < |t.slots|
  {
    t.(slots := Drop(t.slots, i) + [(x, Sub(c))])
  }

  /** What creating the path of `k` and storing `v` there makes of the tree.
      New nodes take the references `f`, `f + 1`. */
  ghost function Insert<V>(t: Tree<V>, k: string, v: V, f: Ref): Tree<V>
    decreases |k|
  {
    if k == "" then t.(slots := Put(t.slots, "", Val(v)))
    else
      var i := BranchOf(t.slots, k[0]);
      if i == |t.slots| then Hang(t, k, Node(f, [("", Val(v))]))
      else if t.slots[i].1.Val? then t
      else
        var n, c := t.slots[i].0, t.slots[i].1.t;
        var a := Common(n, k);
        if a == 0 then t
        else if a == |n| then Replace(t, i, Insert(c, k[a..], v, f))
        else Trade(t, i, k[..a], Fork(f, n[a..], c, k[a..], v))
  }

  /** The node made by splitting an edge: the old lower part `n` to `c`, and
      the value itself or a new branch for the rest of the key. */
  ghost function Fork<V>(f: Ref, n: string, c: Tree<V>, k: string, v: V): Tree<V> {
    if k == "" then Node(f, [(n, Sub(c)), ("", Val(v))])
    else Node(f, [(n, Sub(c)), (k, Sub(Node(f + 1, [("", Val(v))])))])
  }

  // ----- deletion -----

  /** Bring the edge `n` of a node up to date after its child became `c`:
      drop it, bypass it, or keep it. */
  ghost function Refit<V>(slots: seq<(string, Item<V>)>, i: nat, c: Tree<V>): seq<(string, Item<V>)>
    requires i < |slots|
  {
    var n := slots[i].0;
    if |c.slots| == 0 then Drop(slots, i)
    else if |c.slots| == 1 && c.slots[0].0 != "" then
      Drop(slots, i) + [(n + c.slots[0].0, c.slots[0].1)]
    else slots[i := (n, Sub(c))]
  }

  ghost function Delete<V>(t: Tree<V>, k: string): Tree<V>
    decreases |k|
  {
    if k == "" then t.(slots := Del(t.slots, ""))
    else
      var i := EdgeOf(t.slots, k);
      if i < |t.slots| && t.slots[i].1.Sub? then
        t.(slots := Refit(t.slots, i, Delete(t.slots[i].1.t, k[|t.slots[i].0|..])))
      else t
  }

  lemma RefitCompressed<V>(t: Tree<V>, i: nat, c: Tree<V>)
    requires Compressed(t) && i < |t.slots| && t.slots[i].0 != "" && Compressed(c)
    ensures Compressed(t.(slots := Refit(t.slots, i, c)))
  {
    var n := t.slots[i].0;
    if |c.slots| == 1 && c.slots[0].0 != "" {
      Relabelled(t.slots, i, n + c.slots[0].0, c.slots[0].1);
    } else if |c.slots| == 0 {
      Relabelled(t.slots, i, n, t.slots[i].1);
    }
  }

  lemma {:induction false} DeleteCompressed<V>(t: Tree<V>, k: string)
    requires Compressed(t)
    ensures Compressed(Delete(t, k))
    decreases |k|
  {
    if k != "" {
      var i := EdgeOf(t.slots, k);
      if i < |t.slots| {
        var n, c := t.slots[i].0, t.slots[i].1.t;
        DeleteCompressed(c, k[|n|..]);
        RefitCompressed(t, i, Delete(c, k[|n|..]));
      }
    }
  }

  lemma {:induction false} DeleteAbsent<V>(t: Tree<V>, k: string)
    requires Compressed(t) && Lookup(t, k) == None
    ensures Delete(t, k) == t
    decreases |k|
  {
    if k != "" {
      var i := EdgeOf(t.slots, k);
      if i < |t.slots| {
        DeleteAbsent(t.slots[i].1.t, k[|t.slots[i].0|..]);
      }
    }
  }

  /** Paths that start with another character than edge `i` do not notice a change of it. */
  lemma AtElsewhere<V>(t: Tree<V>, d: Tree<V>, w: string)
    requires Kinds(t.slots) && Siblings(t.slots) && Kinds(d.slots) && Siblings(d.slots) && w != ""
    requires Covers(t.slots, d.slots, w[0]) && Covers(d.slots, t.slots, w[0])
    ensures At(t, w) == At(d, w)
  {
    SameEdge(t.slots, d.slots, w);
  }

  lemma RefitElsewhere<V>(t: Tree<V>, i: nat, c: Tree<V>, w: string)
    requires Compressed(t) && i < |t.slots| && t.slots[i].0 != "" && Compressed(c)
    requires w != "" && w[0] != t.slots[i].0[0]
    ensures At(t.(slots := Refit(t.slots, i, c)), w) == At(t, w)
  {
    var d := t.(slots := Refit(t.slots, i, c));
    RefitCompressed(t, i, c);
    forall j | 0 <= j < |t.slots| && t.slots[j].0 != "" && t.slots[j].0[0] == w[0]
      ensures t.slots[j] in d.slots
    {
      var kept := |c.slots| >= 1 && !(|c.slots| == 1 && c.slots[0].0 != "");
      assert d.slots[if j < i || kept then j else j - 1] == t.slots[j];
    }
    AtElsewhere(t, d, w);
  }

  lemma RefitBelow<V>(t: Tree<V>, i: nat, c: Tree<V>, w: string)
    requires Compressed(t) && i < |t.slots| && t.slots[i].0 != "" && Compressed(c)
    requires w != "" && w[0] == t.slots[i].0[0]
    ensures var n, r := t.slots[i].0, At(t.(slots := Refit(t.slots, i, c)), w);
      r.Some? ==> n <= w && r == At(c, w[|n|..])
  {
    var n := t.slots[i].0;
    var d := t.(slots := Refit(t.slots, i, c));
    RefitCompressed(t, i, c);
    var j := EdgeOf(d.slots, w);
    if j < |d.slots| {
      assert d.slots[j].0[0] == n[0];
      if |c.slots| == 0 {
        assert false;
      } else if |c.slots| == 1 && c.slots[0].0 != "" {
        assert j == |d.slots| - 1;
        var x := c.slots[0].0;
        assert n <= n + x <= w;
        assert w[|n|..][|x|..] == w[|n + x|..];
        AtEdge(c, 0, w[|n|..]);
      } else {
        assert j == i;
      }
    }
  }

  /** Where a path leads after a deletion: to the node it led to before, changed
      only if it lies on the way to the deleted key. */
  lemma {:induction false} DeleteAt<V>(t: Tree<V>, k: string, w: string)
    requires Compressed(t) && At(Delete(t, k), w).Some?
    ensures At(t, w).Some?
    ensures At(Delete(t, k), w).value == if w <= k then Delete(At(t, w).value, k[|w|..]) else At(t, w).value
    decreases |w|
  {
    DeleteCompressed(t, k);
    if w != "" {
      var i := EdgeOf(t.slots, k);
      if k == "" {
        AtElsewhere(t, Delete(t, k), w);
      } else if i < |t.slots| {
        var n, c := t.slots[i].0, t.slots[i].1.t;
        var e := Delete(c, k[|n|..]);
        DeleteCompressed(c, k[|n|..]);
        if w[0] == n[0] {
          RefitBelow(t, i, e, w);
          AtEdge(t, i, w);
          DeleteAt(c, k[|n|..], w[|n|..]);
          Through(n, k, w);
        } else {
          RefitElsewhere(t, i, e, w);
        }
      }
    }
  }

  /** Nothing but the deleted key's own place, and nodes bypassed on the way to it, disappears. */
  lemma {:induction false} DeleteKeeps<V>(t: Tree<V>, k: string, w: string)
    requires Compressed(t) && At(t, w).Some? && Dense(At(t, w).value) && !(w <= k)
    ensures At(Delete(t, k), w) == At(t, w)
    decreases |w|
  {
    DeleteCompressed(t, k);
    var i := EdgeOf(t.slots, k);
    if k == "" {
      AtElsewhere(t, Delete(t, k), w);
    } else if i < |t.slots| {
      var n, c := t.slots[i].0, t.slots[i].1.t;
      var e := Delete(c, k[|n|..]);
      DeleteCompressed(c, k[|n|..]);
      if w[0] == n[0] {
        var j := EdgeOf(t.slots, w);
        assert j == i;
        DeleteKeeps(c, k[|n|..], w[|n|..]);
        RefitAbove(t, i, e, w);
      } else {
        RefitElsewhere(t, i, e, w);
      }
    }
  }

  lemma RefitAbove<V>(t: Tree<V>, i: nat, c: Tree<V>, w: string)
    requires Compressed(t) && i < |t.slots| && t.slots[i].0 != "" && Compressed(c)
    requires t.slots[i].0 <= w && w != t.slots[i].0 && At(c, w[|t.slots[i].0|..]).Some?
    ensures At(t.(slots := Refit(t.slots, i, c)), w) == At(c, w[|t.slots[i].0|..])
  {
    var n := t.slots[i].0;
    var d := t.(slots := Refit(t.slots, i, c));
    RefitCompressed(t, i, c);
    if |c.slots| == 1 && c.slots[0].0 != "" {
      var x := c.slots[0].0;
      assert x <= w[|n|..];
      assert n + x <= w;
      assert w[|n|..][|x|..] == w[|n + x|..];
      assert d.slots[|d.slots| - 1].0 == n + x;
      AtEdge(d, |d.slots| - 1, w);
    } else {
      AtEdge(d, i, w);
    }
  }

  /** Deleting a key removes that key from the map and nothing else. */
  lemma {:induction false} DeleteLookup<V>(t: Tree<V>, k: string, w: string)
    requires Compressed(t)
    ensures Lookup(Delete(t, k), w) == if w == k then None else Lookup(t, w)
    decreases |w|, 1
  {
    DeleteCompressed(t, k);
    if w == "" {
      LeafAfterDelete(t, k);
    } else {
      var i := EdgeOf(t.slots, k);
      if k == "" {
        AtElsewhere(t, Delete(t, k), w);
      } else if i < |t.slots| {
        DeleteUnder(t, k, w, i);
      } else if w == k {
        assert At(t, w) == None;
      }
    }
  }

  lemma {:induction false} DeleteUnder<V>(t: Tree<V>, k: string, w: string, i: nat)
    requires Compressed(t) && k != "" && w != "" && i == EdgeOf(t.slots, k) < |t.slots|
    ensures Lookup(Delete(t, k), w) == if w == k then None else Lookup(t, w)
    decreases |w|, 0
  {
    DeleteEdge(t, k, i);
    var n, c := t.slots[i].0, t.slots[i].1.t;
    var e := Delete(c, k[|n|..]);
    DeleteCompressed(c, k[|n|..]);
    hide Delete, Refit, Compressed;
    if w[0] == n[0] {
      RefitLookup(t, i, e, w);
      if n <= w {
        CompressedEdges(t);
        AtEdge(t, i, w);
        DeleteLookup(c, k[|n|..], w[|n|..]);
        assert w == k <==> w[|n|..] == k[|n|..];
      } else {
        CompressedEdges(t);
        NoEdge(t, i, w);
      }
    } else {
      RefitElsewhere(t, i, e, w);
    }
  }

  lemma DeleteEdge<V>(t: Tree<V>, k: string, i: nat)
    requires Compressed(t) && k != "" && i == EdgeOf(t.slots, k) < |t.slots|
    ensures t.slots[i].0 != "" && t.slots[i].0 <= k && t.slots[i].1.Sub? && Compressed(t.slots[i].1.t)
    ensures Delete(t, k) == t.(slots := Refit(t.slots, i, Delete(t.slots[i].1.t, k[|t.slots[i].0|..])))
  {
  }

  /** Whether the slots behind slot `i` move up. */
  predicate Dropped<V>(c: Tree<V>) { |c.slots| == 0 || (|c.slots| == 1 && c.slots[0].0 != "") }

  ghost predicate ShiftedAt<V>(m: seq<(string, Item<V>)>, d: seq<(string, Item<V>)>, i: nat, dropped: bool, j: nat)
    requires j < |m|
  {
    var j' := if dropped && j > i then j - 1 else j;
    j' < |d| && d[j'] == m[j]
  }

  ghost predicate Shifted<V>(m: seq<(string, Item<V>)>, d: seq<(string, Item<V>)>, i: nat, dropped: bool) {
    forall j :: 0 <= j < |m| && j != i ==> ShiftedAt(m, d, i, dropped, j)
  }

  lemma RefitSlots<V>(m: seq<(string, Item<V>)>, i: nat, c: Tree<V>)
    requires i < |m| && m[i].0 != ""
    ensures var d := Refit(m, i, c);
      && Shifted(m, d, i, Dropped(c))
      && (forall j :: 0 <= j < |d| && d[j].0 == "" ==> d[j] in m)
  {
    var d := Refit(m, i, c);
    forall j | 0 <= j < |m| && j != i ensures ShiftedAt(m, d, i, Dropped(c), j) {
    }
    forall j | 0 <= j < |d| && d[j].0 == "" ensures d[j] in m {
      if Dropped(c) && j >= i { assert j + 1 < |m| ==> d[j] == m[j + 1]; }
    }
  }

  lemma RefitLeaf<V>(t: Tree<V>, i: nat, c: Tree<V>)
    requires Compressed(t) && i < |t.slots| && t.slots[i].0 != "" && Compressed(c)
    ensures LeafOf(Refit(t.slots, i, c)) == LeafOf(t.slots)
  {
    hide Siblings, Dense, Kinds, LeafOf, Good, Refit;
    RefitCompressed(t, i, c);
    CompressedEdges(t);
    CompressedEdges(t.(slots := Refit(t.slots, i, c)));
    hide Compressed;
    RefitSlots(t.slots, i, c);
    SameLeaf(t.slots, Refit(t.slots, i, c), i, Dropped(c));
  }

  /** Changing, dropping or moving edge `i` leaves the leaf slot in place. */
  lemma SameLeaf<V>(m: seq<(string, Item<V>)>, d: seq<(string, Item<V>)>, i: nat, dropped: bool)
    requires Siblings(m) && Siblings(d) && i < |m| && m[i].0 != ""
    requires Shifted(m, d, i, dropped)
    requires forall j :: 0 <= j < |d| && d[j].0 == "" ==> d[j] in m
    ensures LeafOf(d) == LeafOf(m)
  {
    var l := IndexOf(m, "");
    if l < |m| {
      assert ShiftedAt(m, d, i, dropped, l);
      var l' := if dropped && l > i then l - 1 else l;
      assert d[l'] == m[l];
      KeyAt(d, l');
    }
  }

  lemma LeafAfterDelete<V>(t: Tree<V>, k: string)
    requires Compressed(t)
    ensures LeafOf(Delete(t, k).slots) == if k == "" then None else LeafOf(t.slots)
  {
    if k != "" {
      var i := EdgeOf(t.slots, k);
      if i < |t.slots| {
        DeleteCompressed(t.slots[i].1.t, k[|t.slots[i].0|..]);
        RefitLeaf(t, i, Delete(t.slots[i].1.t, k[|t.slots[i].0|..]));
      }
    }
  }

  lemma RefitLookup<V>(t: Tree<V>, i: nat, c: Tree<V>, w: string)
    requires Compressed(t) && i < |t.slots| && t.slots[i].0 != "" && Compressed(c)
    requires w != "" && w[0] == t.slots[i].0[0]
    ensures var n := t.slots[i].0;
      Lookup(t.(slots := Refit(t.slots, i, c)), w) == if n <= w then Lookup(c, w[|n|..]) else None
  {
    var n := t.slots[i].0;
    var d := t.(slots := Refit(t.slots, i, c));
    RefitCompressed(t, i, c);
    if n <= w && n != w && At(c, w[|n|..]).Some? {
      RefitAbove(t, i, c, w);
    } else {
      RefitBelow(t, i, c, w);
      if w == n && At(d, w) == None {
        assert !(i < |d.slots| && d.slots[i] == (n, Sub(c))) by {
          if i < |d.slots| && d.slots[i] == (n, Sub(c)) { AtEdge(d, i, w); }
        }
      }
    }
  }

  // ----- what insertion does to paths and to the map -----

  ghost predicate Good<V>(t: Tree<V>) {
    Compressed(t) && Dense(t)
  }

  lemma ReplaceGood<V>(t: Tree<V>, i: nat, c: Tree<V>)
    requires Compressed(t) && i < |t.slots| && t.slots[i].0 != "" && Good(c)
    ensures Compressed(Replace(t, i, c)) && LeafOf(Replace(t, i, c).slots) == LeafOf(t.slots)
  {
    var d, l := Replace(t, i, c), IndexOf(t.slots, "");
    if l < |t.slots| {
      assert d.slots[l] == t.slots[l];
      KeyAt(d.slots, l);
    }
  }

  lemma HangGood<V>(t: Tree<V>, x: string, c: Tree<V>)
    requires Compressed(t) && Good(c) && x != "" && BranchOf(t.slots, x[0]) == |t.slots|
    ensures Compressed(Hang(t, x, c)) && LeafOf(Hang(t, x, c).slots) == LeafOf(t.slots)
  {
    hide LeafOf, Siblings, Dense;
    HangLeaf(t.slots, x, c);
    HangSiblings(t.slots, x, c);
  }

  lemma HangLeaf<V>(m: seq<(string, Item<V>)>, x: string, c: Tree<V>)
    requires x != ""
    ensures LeafOf(m + [(x, Sub(c))]) == LeafOf(m)
  {
    IndexMore(m, (x, Sub(c)), "");
  }

  lemma {:induction false} IndexMore<X>(m: seq<(string, X)>, s: (string, X), k: string)
    requires s.0 != k
    ensures if IndexOf(m, k) < |m| then IndexOf(m + [s], k) == IndexOf(m, k) else IndexOf(m + [s], k) == |m| + 1
  {
    if m != [] && m[0].0 != k {
      IndexMore(m[1..], s, k);
      assert (m + [s])[1..] == m[1..] + [s];
    } else if m == [] {
      assert m + [s] == [s];
    }
  }

  lemma HangSiblings<V>(m: seq<(string, Item<V>)>, x: string, c: Tree<V>)
    requires Siblings(m) && x != "" && BranchOf(m, x[0]) == |m|
    ensures Siblings(m + [(x, Sub(c))])
  {
  }

  lemma TradeGood<V>(t: Tree<V>, i: nat, x: string, c: Tree<V>)
    requires Compressed(t) && i < |t.slots| && t.slots[i].0 != "" && Good(c)
    requires x != "" && x[0] == t.slots[i].0[0]
    ensures Compressed(Trade(t, i, x, c)) && LeafOf(Trade(t, i, x, c).slots) == LeafOf(t.slots)
  {
    hide Good, Dense, Siblings, IndexOf, LeafOf;
    Relabelled(t.slots, i, x, Sub(c));
    DropLeaf(t.slots, i, (x, Sub(c)));
    GoodIs(c);
  }

  lemma GoodIs<V>(c: Tree<V>)
    requires Good(c)
    ensures Compressed(c) && Dense(c)
  {
  }

  lemma DropLeaf<V>(slots: seq<(string, Item<V>)>, i: nat, e: (string, Item<V>))
    requires i < |slots| && slots[i].0 != "" && e.0 != "" && Siblings(slots) && Siblings(Drop(slots, i) + [e])
    ensures LeafOf(Drop(slots, i) + [e]) == LeafOf(slots)
  {
    var d, l := Drop(slots, i) + [e], IndexOf(slots, "");
    if l < |slots| {
      var l' := if l < i then l else l - 1;
      assert d[l'] == slots[l];
      KeyAt(d, l');
    }
  }

  lemma ReplaceAt<V>(t: Tree<V>, i: nat, c: Tree<V>, w: string)
    requires Compressed(t) && i < |t.slots| && t.slots[i].0 != "" && Good(c) && w != ""
    ensures At(Replace(t, i, c), w) ==
      if w[0] != t.slots[i].0[0] then At(t, w)
      else if t.slots[i].0 <= w then At(c, w[|t.slots[i].0|..])
      else None
  {
    var d := Replace(t, i, c);
    ReplaceGood(t, i, c);
    if w[0] != t.slots[i].0[0] {
      forall j | 0 <= j < |t.slots| && j != i ensures t.slots[j] in d.slots { assert d.slots[j] == t.slots[j]; }
      AtElsewhere(t, d, w);
    } else if t.slots[i].0 <= w {
      AtEdge(d, i, w);
    }
  }

  lemma HangAt<V>(t: Tree<V>, x: string, c: Tree<V>, w: string)
    requires Compressed(t) && Good(c) && x != "" && BranchOf(t.slots, x[0]) == |t.slots| && w != ""
    ensures At(Hang(t, x, c), w) ==
      if w[0] != x[0] then At(t, w) else if x <= w then At(c, w[|x|..]) else None
  {
    var d := Hang(t, x, c);
    HangGood(t, x, c);
    if w[0] != x[0] {
      forall j | 0 <= j < |t.slots| ensures t.slots[j] in d.slots { assert d.slots[j] == t.slots[j]; }
      AtElsewhere(t, d, w);
    } else if x <= w {
      AtEdge(d, |t.slots|, w);
    }
  }

  lemma TradeAt<V>(t: Tree<V>, i: nat, x: string, c: Tree<V>, w: string)
    requires Compressed(t) && i < |t.slots| && t.slots[i].0 != "" && Good(c) && w != ""
    requires x != "" && x[0] == t.slots[i].0[0]
    ensures At(Trade(t, i, x, c), w) ==
      if w[0] != x[0] then At(t, w) else if x <= w then At(c, w[|x|..]) else None
  {
    hide Good, At;
    var d := Trade(t, i, x, c);
    TradeGood(t, i, x, c);
    CompressedEdges(t);
    CompressedEdges(d);
    hide Compressed, Kinds, Siblings;
    if w[0] != x[0] {
      TradeCovers(t, i, x, c, w[0]);
      hide Trade;
      AtElsewhere(t, d, w);
    } else {
      assert d.slots[|d.slots| - 1] == (x, Sub(c));
      hide Trade;
      if x <= w { AtEdge(d, |d.slots| - 1, w); } else { NoEdge(d, |d.slots| - 1, w); }
    }
  }

  lemma TradeCovers<V>(t: Tree<V>, i: nat, x: string, c: Tree<V>, a: char)
    requires i < |t.slots| && t.slots[i].0 != "" && x != "" && x[0] == t.slots[i].0[0] && a != x[0]
    ensures var d := Trade(t, i, x, c); Covers(t.slots, d.slots, a) && Covers(d.slots, t.slots, a)
  {
    var d := Trade(t, i, x, c);
    forall j | 0 <= j < |t.slots| && j != i ensures t.slots[j] in d.slots {
      assert d.slots[if j < i then j else j - 1] == t.slots[j];
    }
  }

  lemma ForkGood<V>(f: Ref, n: string, c: Tree<V>, k: string, v: V)
    requires n != "" && Good(c) && (k != "" ==> k[0] != n[0])
    ensures Good(Fork(f, n, c, k, v))
    ensures LeafOf(Fork(f, n, c, k, v).slots) == if k == "" then Some(v) else None
  {
    var d := Fork(f, n, c, k, v);
    if k != "" {
      assert Compressed(Node(f + 1, [("", Val(v))]));
    } else {
      KeyAt(d.slots, 1);
    }
  }

  /** The paths of a forked edge: those of the old lower part, and the new key. */
  lemma ForkAt<V>(f: Ref, n: string, c: Tree<V>, k: string, v: V, w: string)
    requires n != "" && Good(c) && (k != "" ==> k[0] != n[0])
    ensures At(Fork(f, n, c, k, v), w) ==
      if w == "" then Some(Fork(f, n, c, k, v))
      else if n <= w then At(c, w[|n|..])
      else if w == k then Some(Node(f + 1, [("", Val(v))]))
      else None
  {
    var d := Fork(f, n, c, k, v);
    ForkGood(f, n, c, k, v);
    if n <= w {
      AtEdge(d, 0, w);
    } else if w != "" && k != "" && k <= w {
      AtEdge(d, 1, w);
    }
  }

  lemma PutGood<V>(t: Tree<V>, v: V)
    requires Compressed(t)
    ensures Good(t.(slots := Put(t.slots, "", Val(v)))) && LeafOf(Put(t.slots, "", Val(v))) == Some(v)
  {
    var d, l := Put(t.slots, "", Val(v)), IndexOf(t.slots, "");
    assert d[l] == ("", Val(v));
    assert Siblings(d);
    KeyAt(d, l);
  }

  /** Insertion keeps the compressed form. */
  lemma {:induction false} InsertGood<V>(t: Tree<V>, k: string, v: V, f: Ref)
    requires Compressed(t)
    ensures Compressed(Insert(t, k, v, f))
    ensures Dense(t) || k == "" ==> Dense(Insert(t, k, v, f))
    ensures LeafOf(Insert(t, k, v, f).slots) == if k == "" then Some(v) else LeafOf(t.slots)
    decreases |k|
  {
    if k == "" {
      PutGood(t, v);
    } else {
      var i := BranchOf(t.slots, k[0]);
      if i == |t.slots| {
        PutGood(Node(f, []), v);
        HangGood(t, k, Node(f, [("", Val(v))]));
      } else {
        var n, c := t.slots[i].0, t.slots[i].1.t;
        var a := Common(n, k);
        assert a > 0;
        if a == |n| {
          InsertGood(c, k[a..], v, f);
          ReplaceGood(t, i, Insert(c, k[a..], v, f));
        } else {
          ForkGood(f, n[a..], c, k[a..], v);
          TradeGood(t, i, k[..a], Fork(f, n[a..], c, k[a..], v));
        }
      }
    }
  }

  // One level of an insertion: elsewhere nothing changes; below the edge that shares its
  // first character with the key it hangs up a new edge, descends, or forks the edge.

  ghost predicate Fresh<V>(t: Tree<V>, k: string) {
    k != "" && BranchOf(t.slots, k[0]) == |t.slots|
  }

  ghost predicate Descends<V>(t: Tree<V>, k: string) {
    && k != "" && BranchOf(t.slots, k[0]) < |t.slots|
    && t.slots[BranchOf(t.slots, k[0])].0 <= k
  }

  ghost predicate Forks<V>(t: Tree<V>, k: string) {
    && k != "" && BranchOf(t.slots, k[0]) < |t.slots|
    && !(t.slots[BranchOf(t.slots, k[0])].0 <= k)
  }

  lemma CommonOf(n: string, k: string)
    requires n != "" && k != "" && n[0] == k[0]
    ensures Common(n, k) > 0
    ensures n <= k <==> Common(n, k) == |n|
  {
    var a := Common(n, k);
  }

  lemma StepElsewhere<V>(t: Tree<V>, k: string, v: V, f: Ref, w: string)
    requires Compressed(t) && w != "" && (k == "" || w[0] != k[0])
    ensures At(Insert(t, k, v, f), w) == At(t, w)
  {
    if k == "" {
      var d := t.(slots := Put(t.slots, "", Val(v)));
      PutGood(t, v);
      forall j | 0 <= j < |t.slots| && t.slots[j].0 != "" ensures t.slots[j] in d.slots {
        assert d.slots[j] == t.slots[j];
      }
      AtElsewhere(t, d, w);
    } else if Fresh(t, k) {
      PutGood(Node(f, []), v);
      HangAt(t, k, Node(f, [("", Val(v))]), w);
    } else if Descends(t, k) {
      StepDescends(t, k, v, f, w);
    } else {
      StepForks(t, k, v, f, w);
    }
  }

  lemma StepFresh<V>(t: Tree<V>, k: string, v: V, f: Ref, w: string)
    requires Compressed(t) && w != "" && Fresh(t, k) && w[0] == k[0]
    ensures At(Insert(t, k, v, f), w) == if w == k then Some(Node(f, [("", Val(v))])) else None
  {
    var c := Node(f, [("", Val(v))]);
    PutGood(Node(f, []), v);
    LeafAt(f, v, w[if |k| <= |w| then |k| else 0..]);
    hide At, Compressed, Good, IndexOf, EdgeOf;
    HangAt(t, k, c, w);
  }

  /** A new leaf has no paths below it. */
  lemma LeafAt<V>(f: Ref, v: V, w: string)
    ensures At(Node(f, [("", Val(v))]), w) == if w == "" then Some(Node(f, [("", Val(v))])) else None
  {
  }

  lemma StepDescends<V>(t: Tree<V>, k: string, v: V, f: Ref, w: string)
    requires Compressed(t) && w != "" && Descends(t, k)
    ensures var n, c := t.slots[BranchOf(t.slots, k[0])].0, t.slots[BranchOf(t.slots, k[0])].1.t;
      && Insert(t, k, v, f) == Replace(t, BranchOf(t.slots, k[0]), Insert(c, k[|n|..], v, f))
      && At(Insert(t, k, v, f), w) ==
         if w[0] != k[0] then At(t, w) else if n <= w then At(Insert(c, k[|n|..], v, f), w[|n|..]) else None
  {
    var i := BranchOf(t.slots, k[0]);
    var n, c := t.slots[i].0, t.slots[i].1.t;
    CommonOf(n, k);
    InsertGood(c, k[|n|..], v, f);
    ReplaceAt(t, i, Insert(c, k[|n|..], v, f), w);
  }

  lemma StepForks<V>(t: Tree<V>, k: string, v: V, f: Ref, w: string)
    requires Compressed(t) && w != "" && Forks(t, k)
    ensures var n, c := t.slots[BranchOf(t.slots, k[0])].0, t.slots[BranchOf(t.slots, k[0])].1.t;
      var a := Common(n, k);
      && Insert(t, k, v, f) == Trade(t, BranchOf(t.slots, k[0]), k[..a], Fork(f, n[a..], c, k[a..], v))
      && At(Insert(t, k, v, f), w) ==
         if w[0] != k[0] then At(t, w) else if k[..a] <= w then At(Fork(f, n[a..], c, k[a..], v), w[a..]) else None
  {
    var i := BranchOf(t.slots, k[0]);
    var n, c := t.slots[i].0, t.slots[i].1.t;
    var a := Common(n, k);
    CommonOf(n, k);
    ForkGood(f, n[a..], c, k[a..], v);
    TradeAt(t, i, k[..a], Fork(f, n[a..], c, k[a..], v), w);
  }

  /** In terms of the old tree, a path below the shared edge stays within its label or goes on below it. */
  lemma BranchAt<V>(t: Tree<V>, c: char, w: string)
    requires Compressed(t) && w != "" && w[0] == c
    ensures var i := BranchOf(t.slots, c);
      At(t, w) == if i < |t.slots| && t.slots[i].0 <= w then At(t.slots[i].1.t, w[|t.slots[i].0|..]) else None
  {
    var i, e := BranchOf(t.slots, c), EdgeOf(t.slots, w);
    if e < |t.slots| { assert e == i; }
    if i < |t.slots| && t.slots[i].0 <= w { AtEdge(t, i, w); }
  }

  /** The old nodes stay on their paths; only those on the way to the key change. */
  lemma {:induction false} InsertAt<V>(t: Tree<V>, k: string, v: V, f: Ref, w: string)
    requires Compressed(t) && At(t, w).Some?
    ensures At(Insert(t, k, v, f), w) ==
            Some(if w <= k then Insert(At(t, w).value, k[|w|..], v, f) else At(t, w).value)
    decreases |w|
  {
    if w == "" {
      assert k[0..] == k;
    } else if k == "" || w[0] != k[0] {
      StepElsewhere(t, k, v, f, w);
    } else {
      BranchAt(t, k[0], w);
      var i := BranchOf(t.slots, k[0]);
      var n, c := t.slots[i].0, t.slots[i].1.t;
      if n <= k {
        StepDescends(t, k, v, f, w);
        InsertAt(c, k[|n|..], v, f, w[|n|..]);
        Through(n, k, w);
      } else {
        var a := Common(n, k);
        CommonOf(n, k);
        StepForks(t, k, v, f, w);
        ThroughFork(n, k, w);
        ForkAt(f, n[a..], c, k[a..], v, w[a..]);
      }
    }
  }

  lemma Through(n: string, k: string, w: string)
    requires n <= k && n <= w
    ensures w <= k <==> w[|n|..] <= k[|n|..]
    ensures w <= k ==> k[|n|..][|w[|n|..]|..] == k[|w|..]
    ensures w == k <==> w[|n|..] == k[|n|..]
  {
    assert w == n + w[|n|..] && k == n + k[|n|..];
  }

  lemma ThroughFork(n: string, k: string, w: string)
    requires n != "" && k != "" && Common(n, k) < |n|
    ensures var a := Common(n, k);
      n <= w ==> k[..a] <= w && n[a..] <= w[a..] && w[a..][|n[a..]|..] == w[|n|..] && !(w <= k)
    ensures var a := Common(n, k);
      k[..a] <= w ==> (n <= w <==> n[a..] <= w[a..]) && (w == k <==> w[a..] == k[a..])
  {
    hide *;
    var a := Common(n, k);
    if n <= w { SplitWord(n, k, w, a); }
    if k[..a] <= w { JoinWord(n, k, w, a); }
  }

  lemma SplitWord(n: string, k: string, w: string, a: nat)
    requires a < |n| && a <= |k| && n[..a] == k[..a] && (a < |k| ==> n[a] != k[a]) && n <= w
    ensures k[..a] <= w && n[a..] <= w[a..] && w[a..][|n[a..]|..] == w[|n|..] && !(w <= k)
  {
    assert w[..|n|] == n;
    assert w[..a] == n[..a];
    assert w[a..][..|n| - a] == n[a..];
    assert w[a] == n[a];
  }

  lemma JoinWord(n: string, k: string, w: string, a: nat)
    requires a < |n| && a <= |k| && n[..a] == k[..a] && k[..a] <= w
    ensures (n <= w <==> n[a..] <= w[a..]) && (w == k <==> w[a..] == k[a..])
  {
    assert w == w[..a] + w[a..] && k == k[..a] + k[a..] && n == n[..a] + n[a..];
    assert w[..a] == k[..a];
  }

  lemma LookupForks<V>(t: Tree<V>, k: string, v: V, f: Ref, w: string)
    requires Compressed(t) && w != "" && Forks(t, k) && w[0] == k[0]
    ensures Lookup(Insert(t, k, v, f), w) == if w == k then Some(v) else Lookup(t, w)
  {
    var i := BranchOf(t.slots, k[0]);
    var n, c := t.slots[i].0, t.slots[i].1.t;
    var a := Common(n, k);
    CommonOf(n, k);
    BranchAt(t, k[0], w);
    StepForks(t, k, v, f, w);
    ThroughFork(n, k, w);
    if k[..a] <= w {
      ForkGood(f, n[a..], c, k[a..], v);
      ForkAt(f, n[a..], c, k[a..], v, w[a..]);
    } else {
      assert w != k;
    }
  }

  /** Inserting a key sets it in the map and touches nothing else. */
  lemma {:induction false} InsertLookup<V>(t: Tree<V>, k: string, v: V, f: Ref, w: string)
    requires Compressed(t)
    ensures Lookup(Insert(t, k, v, f), w) == if w == k then Some(v) else Lookup(t, w)
    decreases |w|
  {
    InsertGood(t, k, v, f);
    if w == "" {
    } else if k == "" || w[0] != k[0] {
      StepElsewhere(t, k, v, f, w);
    } else {
      BranchAt(t, k[0], w);
      var i := BranchOf(t.slots, k[0]);
      if i == |t.slots| {
        StepFresh(t, k, v, f, w);
      } else {
        var n, c := t.slots[i].0, t.slots[i].1.t;
        if n <= k {
          StepDescends(t, k, v, f, w);
          if n <= w {
            InsertLookup(c, k[|n|..], v, f, w[|n|..]);
            Through(n, k, w);
          }
        } else {
          LookupForks(t, k, v, f, w);
        }
      }
    }
  }
}

/** The stack iterator over a searchable map, and why it may be left running
    while keys it has already yielded are deleted. */
module RadixIterators {
  import opened JsMaps
  import opened RadixTree
  import opened RadixStore
  import opened RadixEntries
  import opened RadixMaps

  /** A stack frame: a node object and the keys of it, copied when it was entered,
      that are not done yet. */
  datatype Frame = Frame(ref: Ref, keys: seq<string>)

  /** What a frame still has to yield: the path of the node and its remaining slots. */
  datatype Todo<V> = Todo(prefix: string, slots: seq<(string, Item<V>)>)

  ghost function Labels<T>(m: seq<(string, T)>): (ks: seq<string>)
    ensures |ks| == |m| && forall i :: 0 <= i < |m| ==> ks[i] == m[i].0
  {
    if m == [] then [] else [m[0].0] + Labels(m[1..])
  }

  /** Everything the iterator is going to yield. */
  ghost function Rest<V>(todo: seq<Todo<V>>): seq<(string, V)> {
    if todo == [] then []
    else
      var top := todo[|todo| - 1];
      Entries(top.prefix, top.slots) + Rest(todo[..|todo| - 1])
  }

  /** A remaining slot of a frame can still be followed, and leads where the tree has it. */
  ghost predicate SlotOk<V>(store: Store<V>, t: Tree<V>, r: Ref, p: string, e: (string, Item<V>)) {
    && r in store
    && IndexOf(store[r], e.0) < |store[r]| && store[r][IndexOf(store[r], e.0)].1 == Cell(e.1)
    && match e.1
       case Sub(c) => e.0 != "" && Good(c) && At(t, p + e.0) == Some(c)
       case Val(v) => e.0 == "" && At(t, p).Some? && At(t, p).value.ref == r && LeafOf(At(t, p).value.slots) == Some(v)
  }

  ghost predicate TodoOk<V>(store: Store<V>, t: Tree<V>, r: Ref, d: Todo<V>) {
    forall i :: 0 <= i < |d.slots| ==> SlotOk(store, t, r, d.prefix, d.slots[i])
  }

  /** The stack in the middle of a step: the last key of every frame is the one being worked on. */
  ghost predicate Busy<V>(store: Store<V>, t: Tree<V>, p: string, path: seq<Frame>, todo: seq<Todo<V>>) {
    && |path| == |todo|
    && (path != [] ==> todo[0].prefix == p)
    && (forall i :: 0 <= i < |path| ==> path[i].keys != [] && path[i].keys[..|path[i].keys| - 1] == Labels(todo[i].slots))
    && (forall i :: 0 < i < |path| ==> todo[i].prefix == todo[i - 1].prefix + path[i - 1].keys[|path[i - 1].keys| - 1])
    && (forall i :: 0 <= i < |path| ==> TodoOk(store, t, path[i].ref, todo[i]))
  }

  /** The stack between two steps: the top frame has something left to do. */
  ghost predicate Ready<V>(store: Store<V>, t: Tree<V>, p: string, path: seq<Frame>, todo: seq<Todo<V>>) {
    && |path| == |todo|
    && (path != [] ==>
          var l := |path| - 1;
          && todo[l].slots != [] && path[l].keys == Labels(todo[l].slots)
          && TodoOk(store, t, path[l].ref, todo[l])
          && Busy(store, t, p, path[..l], todo[..l])
          && todo[l].prefix == if l == 0 then p else todo[l - 1].prefix + path[l - 1].keys[|path[l - 1].keys| - 1])
  }

  /** The key spelled by the last keys of the frames. */
  function Spell(path: seq<Frame>): string
    requires forall i :: 0 <= i < |path| ==> path[i].keys != []
  {
    if path == [] then ""
    else
      var l := |path| - 1;
      Spell(path[..l]) + path[l].keys[|path[l].keys| - 1]
  }

  lemma SpellPrefix<V>(store: Store<V>, t: Tree<V>, p: string, path: seq<Frame>, todo: seq<Todo<V>>)
    requires Busy(store, t, p, path, todo) && path != []
    ensures forall i :: 0 <= i < |path| ==> path[i].keys != []
    ensures var l := |path| - 1;
      p + Spell(path) == todo[l].prefix + path[l].keys[|path[l].keys| - 1]
  {
    hide TodoOk, Labels, Spell;
    SpellChain(p, path, todo);
  }

  lemma {:induction false} SpellChain<V>(p: string, path: seq<Frame>, todo: seq<Todo<V>>)
    requires |path| == |todo| > 0 && todo[0].prefix == p && forall i :: 0 <= i < |path| ==> path[i].keys != []
    requires forall i :: 0 < i < |path| ==> todo[i].prefix == todo[i - 1].prefix + path[i - 1].keys[|path[i - 1].keys| - 1]
    ensures var l := |path| - 1;
      p + Spell(path) == todo[l].prefix + path[l].keys[|path[l].keys| - 1]
    decreases |path|
  {
    var l := |path| - 1;
    if l > 0 {
      SpellChain(p, path[..l], todo[..l]);
      assert p + Spell(path) == p + Spell(path[..l]) + path[l].keys[|path[l].keys| - 1];
    }
  }

  // ----- the remaining slots survive changes elsewhere -----

  /** A key is clear of a slot: the slot does not lead to it. */
  ghost predicate Clear<V>(p: string, e: (string, Item<V>), k: string) {
    if e.1.Val? then k != p else !(p + e.0 <= k)
  }

  lemma SlotAfterDelete<V>(store: Store<V>, store': Store<V>, t: Tree<V>, k: string, r: Ref, p: string, e: (string, Item<V>))
    requires Compressed(t) && Rep(store, t) && Deleted(store, store', t, k)
    requires SlotOk(store, t, r, p, e) && Clear(p, e, k)
    ensures SlotOk(store', Delete(t, k), r, p, e)
  {
    if e.1.Sub? {
      EdgeAfterDelete(store, store', t, k, r, p, e.0, e.1.t);
    } else {
      LeafSlotAfterDelete(store, store', t, k, r, p, e.1.v);
    }
  }

  lemma LeafSlotAfterDelete<V>(store: Store<V>, store': Store<V>, t: Tree<V>, k: string, r: Ref, p: string, v: V)
    requires Compressed(t) && Rep(store, t) && Deleted(store, store', t, k) && k != p
    requires SlotOk(store, t, r, p, ("", Val(v)))
    ensures SlotOk(store', Delete(t, k), r, p, ("", Val(v)))
  {
    var n := At(t, p).value;
    DeleteLookup(t, k, p);
    DeleteAt(t, k, p);
    AtConcat(t, p, "");
    var d := At(Delete(t, k), p).value;
    DeleteRep(store, store', t, k);
    if p <= k { DeleteRef(n, k[|p|..]); }
    FlatKeys(d.slots, "");
  }

  lemma EdgeAfterDelete<V>(store: Store<V>, store': Store<V>, t: Tree<V>, k: string, r: Ref, p: string, x: string, c: Tree<V>)
    requires Compressed(t) && Rep(store, t) && Deleted(store, store', t, k) && !(p + x <= k)
    requires SlotOk(store, t, r, p, (x, Sub(c)))
    ensures SlotOk(store', Delete(t, k), r, p, (x, Sub(c)))
  {
    hide At, Delete, Compressed, Rep, Flat, Dense, IndexOf;
    DeleteKeeps(t, k, p + x);
    if exists w {:trigger At(t, w)} :: w <= k && At(t, w).Some? && At(t, w).value.ref == r {
      var w {:trigger At(t, w)} :| w <= k && At(t, w).Some? && At(t, w).value.ref == r;
      EdgeOnTheWay(store, t, w, r, p, x, c);
      EdgeInRecord(At(t, w).value, k[|w|..], x, c);
    }
  }

  lemma EdgeInRecord<V>(n: Tree<V>, k: string, x: string, c: Tree<V>)
    requires Compressed(n) && x != "" && !(x <= k)
    requires IndexOf(n.slots, x) < |n.slots| && n.slots[IndexOf(n.slots, x)].1 == Sub(c)
    ensures var rec := Flat(Delete(n, k).slots); IndexOf(rec, x) < |rec| && rec[IndexOf(rec, x)].1 == Link(c.ref)
  {
    EdgeKept(n, k, x, c);
    FlatKeys(Delete(n, k).slots, x);
  }

  /** The object lies on a path only if that is the frame's path. */
  lemma EdgeOnTheWay<V>(store: Store<V>, t: Tree<V>, w: string, r: Ref, p: string, x: string, c: Tree<V>)
    requires Compressed(t) && Rep(store, t) && SlotOk(store, t, r, p, (x, Sub(c)))
    requires At(t, w).Some? && At(t, w).value.ref == r
    ensures w == p && Compressed(At(t, w).value)
    ensures var n := At(t, w).value; IndexOf(n.slots, x) < |n.slots| && n.slots[IndexOf(n.slots, x)].1 == Sub(c)
  {
    hide At, Compressed, Good, Flat, IndexOf, EdgeOf, Dense;
    var n := At(t, w).value;
    var i := IndexOf(n.slots, x);
    AtConcat(t, w, x);
    FlatKeys(n.slots, x);
    AtLabel(n, i);
    assert At(t, w + x).value.ref == c.ref;
    SameStem(w, p, x);
  }

  lemma SameStem(w: string, p: string, x: string)
    ensures w + x == p + x ==> w == p
  {
    if w + x == p + x {
      assert (w + x)[..|w|] == w && (p + x)[..|p|] == p;
    }
  }

  /** An edge that does not lead to the deleted key keeps its label and its end. */
  lemma EdgeKept<V>(n: Tree<V>, k: string, x: string, c: Tree<V>)
    requires Compressed(n) && x != "" && !(x <= k)
    requires IndexOf(n.slots, x) < |n.slots| && n.slots[IndexOf(n.slots, x)].1 == Sub(c)
    ensures var d := Delete(n, k); IndexOf(d.slots, x) < |d.slots| && d.slots[IndexOf(d.slots, x)].1 == Sub(c)
  {
    DeleteCompressed(n, k);
    var i := IndexOf(n.slots, x);
    if k == "" {
      SlotKept(n.slots, IndexOf(n.slots, ""), i);
    } else {
      var e := EdgeOf(n.slots, k);
      if e < |n.slots| {
        RefitKeeps(n, e, Delete(n.slots[e].1.t, k[|n.slots[e].0|..]), i);
      }
    }
  }

  /** Dropping another slot keeps a slot findable. */
  lemma SlotKept<T>(m: seq<(string, T)>, l: nat, i: nat)
    requires Siblings(m) && i < |m| && l <= |m| && l != i
    ensures var d := if l < |m| then Drop(m, l) else m;
      IndexOf(d, m[i].0) < |d| && d[IndexOf(d, m[i].0)] == m[i]
  {
    var d := if l < |m| then Drop(m, l) else m;
    var j := if l < i then i - 1 else i;
    assert d[j] == m[i];
    KeyAt(d, j);
  }

  lemma RefitKeeps<V>(n: Tree<V>, e: nat, c: Tree<V>, i: nat)
    requires e < |n.slots| && i < |n.slots| && i != e && Siblings(Refit(n.slots, e, c))
    ensures var d := Refit(n.slots, e, c);
      IndexOf(d, n.slots[i].0) < |d| && d[IndexOf(d, n.slots[i].0)] == n.slots[i]
  {
    var d := Refit(n.slots, e, c);
    var kept := |c.slots| >= 1 && !(|c.slots| == 1 && c.slots[0].0 != "");
    var j := if kept || i < e then i else i - 1;
    assert d[j] == n.slots[i];
    KeyAt(d, j);
  }

  lemma SlotAfterSet<V>(store: Store<V>, store': Store<V>, t: Tree<V>, k: string, v: V, f: Ref, r: Ref, p: string, e: (string, Item<V>))
    requires Compressed(t) && Rep(store, t) && At(t, k).Some?
    requires store' == store[At(t, k).value.ref := Put(store[At(t, k).value.ref], "", Leaf(v))]
    requires SlotOk(store, t, r, p, e) && Clear(p, e, k)
    ensures SlotOk(store', Insert(t, k, v, f), r, p, e)
  {
    hide Compressed, Insert, Delete, Flat, Dense;
    var node := At(t, k).value.ref;
    if e.1.Sub? {
      InsertAt(t, k, v, f, p + e.0);
      if r == node { PutOther(store[r], e.0, Leaf(v)); }
    } else {
      InsertAt(t, k, v, f, p);
      LeafStays(t, k, v, f, p);
      assert r != node;
    }
  }

  lemma PutOther<T>(m: seq<(string, T)>, x: string, v: T)
    requires x != "" && IndexOf(m, x) < |m|
    ensures IndexOf(Put(m, "", v), x) == IndexOf(m, x) && Put(m, "", v)[IndexOf(m, x)] == m[IndexOf(m, x)]
    ensures |Put(m, "", v)| >= |m|
  {
    var d, i := Put(m, "", v), IndexOf(m, x);
    assert d[i] == m[i];
    assert forall j :: 0 <= j < i ==> d[j].0 != x;
  }

  lemma LeafStays<V>(t: Tree<V>, k: string, v: V, f: Ref, p: string)
    requires Compressed(t) && At(t, p).Some? && k != p
    ensures var n := At(t, p).value;
      p <= k ==> Insert(n, k[|p|..], v, f).ref == n.ref && LeafOf(Insert(n, k[|p|..], v, f).slots) == LeafOf(n.slots)
  {
    AtConcat(t, p, "");
    if p <= k {
      assert k == p + k[|p|..];
      InsertGood(At(t, p).value, k[|p|..], v, f);
      InsertRef(At(t, p).value, k[|p|..], v, f);
    }
  }

  // ----- a running iterator survives changes to keys it no longer owes -----

  ghost predicate Owes<V>(todo: seq<Todo<V>>, k: string) {
    exists i :: 0 <= i < |Rest(todo)| && Rest(todo)[i].0 == k
  }

  lemma {:induction false} YieldIn<V>(p: string, slots: seq<(string, Item<V>)>, j: nat, e: (string, V))
    requires j < |slots| && e in Yield(p, slots[j])
    ensures e in Entries(p, slots)
  {
    var l := |slots| - 1;
    if j < l { YieldIn(p, slots[..l], j, e); }
  }

  lemma {:induction false} RestIn<V>(todo: seq<Todo<V>>, i: nat, e: (string, V))
    requires i < |todo| && e in Entries(todo[i].prefix, todo[i].slots)
    ensures e in Rest(todo)
  {
    var l := |todo| - 1;
    if i < l { RestIn(todo[..l], i, e); }
  }

  lemma ClearOf<V>(store: Store<V>, t: Tree<V>, todo: seq<Todo<V>>, i: nat, j: nat, r: Ref, k: string)
    requires Compressed(t) && Lookup(t, k).Some? && !Owes(todo, k)
    requires i < |todo| && j < |todo[i].slots| && SlotOk(store, t, r, todo[i].prefix, todo[i].slots[j])
    ensures Clear(todo[i].prefix, todo[i].slots[j], k)
  {
    var (p, e) := (todo[i].prefix, todo[i].slots[j]);
    if !Clear(p, e, k) {
      var v := Lookup(t, k).value;
      if e.1.Sub? {
        var x := k[|p + e.0|..];
        assert k == p + e.0 + x;
        AtConcat(t, p + e.0, x);
        var n := EntriesComplete(p + e.0, e.1.t, x);
        assert (k, v) in Yield(p, e);
      } else {
        v := e.1.v;
        assert (k, v) in Yield(p, e);
      }
      YieldIn(p, todo[i].slots, j, (k, v));
      RestIn(todo, i, (k, v));
    }
  }

  ghost predicate Frames<V>(store: Store<V>, t: Tree<V>, path: seq<Frame>, todo: seq<Todo<V>>) {
    |path| == |todo| && forall i :: 0 <= i < |path| ==> TodoOk(store, t, path[i].ref, todo[i])
  }

  lemma ReadyFrames<V>(store: Store<V>, store': Store<V>, t: Tree<V>, t': Tree<V>, p: string, path: seq<Frame>, todo: seq<Todo<V>>)
    requires Ready(store, t, p, path, todo)
    ensures Frames(store, t, path, todo)
    ensures Frames(store', t', path, todo) ==> Ready(store', t', p, path, todo)
  {
    hide *;
    FramesOf(store, t, p, path, todo);
    if Frames(store', t', path, todo) { ReadyAgain(store, store', t, t', p, path, todo); }
  }

  lemma FramesOf<V>(store: Store<V>, t: Tree<V>, p: string, path: seq<Frame>, todo: seq<Todo<V>>)
    requires Ready(store, t, p, path, todo)
    ensures Frames(store, t, path, todo)
  {
    hide TodoOk, Labels;
    if path != [] {
      var l := |path| - 1;
      assert forall i :: 0 <= i < l ==> path[..l][i] == path[i] && todo[..l][i] == todo[i];
    }
  }

  lemma ReadyAgain<V>(store: Store<V>, store': Store<V>, t: Tree<V>, t': Tree<V>, p: string, path: seq<Frame>, todo: seq<Todo<V>>)
    requires Ready(store, t, p, path, todo) && Frames(store', t', path, todo)
    ensures Ready(store', t', p, path, todo)
  {
    hide TodoOk, Labels;
    if path != [] {
      var l := |path| - 1;
      assert forall i :: 0 <= i < l ==> path[..l][i] == path[i] && todo[..l][i] == todo[i];
    }
  }

  lemma ReadyAfterDelete<V>(store: Store<V>, store': Store<V>, t: Tree<V>, k: string, p: string, path: seq<Frame>, todo: seq<Todo<V>>)
    requires Compressed(t) && Rep(store, t) && Deleted(store, store', t, k) && Lookup(t, k).Some?
    requires Ready(store, t, p, path, todo) && !Owes(todo, k)
    ensures Ready(store', Delete(t, k), p, path, todo)
  {
    hide Compressed, Rep, Deleted, Ready, SlotOk, Lookup, Owes, Delete, Clear;
    ReadyFrames(store, store', t, Delete(t, k), p, path, todo);
    forall i, j | 0 <= i < |path| && 0 <= j < |todo[i].slots|
      ensures SlotOk(store', Delete(t, k), path[i].ref, todo[i].prefix, todo[i].slots[j])
    {
      ClearOf(store, t, todo, i, j, path[i].ref, k);
      SlotAfterDelete(store, store', t, k, path[i].ref, todo[i].prefix, todo[i].slots[j]);
    }
  }

  lemma ReadyAfterSet<V>(store: Store<V>, t: Tree<V>, k: string, v: V, f: Ref, p: string, path: seq<Frame>, todo: seq<Todo<V>>)
    requires Compressed(t) && Rep(store, t) && Lookup(t, k).Some? && At(t, k).Some? && At(t, k).value.ref in store
    requires Ready(store, t, p, path, todo) && !Owes(todo, k)
    ensures var r := At(t, k).value.ref;
      Ready(store[r := Put(store[r], "", Leaf(v))], Insert(t, k, v, f), p, path, todo)
  {
    hide Compressed, Rep, Ready, SlotOk, Lookup, Owes, Insert, Clear, At, Put;
    var r := At(t, k).value.ref;
    var store' := store[r := Put(store[r], "", Leaf(v))];
    ReadyFrames(store, store', t, Insert(t, k, v, f), p, path, todo);
    forall i, j | 0 <= i < |path| && 0 <= j < |todo[i].slots|
      ensures SlotOk(store', Insert(t, k, v, f), path[i].ref, todo[i].prefix, todo[i].slots[j])
    {
      ClearOf(store, t, todo, i, j, path[i].ref, k);
      SlotAfterSet(store, store', t, k, v, f, path[i].ref, todo[i].prefix, todo[i].slots[j]);
    }
  }

  // ----- what a running iterator finds after changes to keys it still owes -----

  /** A remaining slot, as the tree has it now. */
  ghost function RereadSlot<V>(p: string, e: (string, Item<V>), t: Tree<V>): (string, Item<V>) {
    match e.1
    case Sub(_) => if At(t, p + e.0).Some? then (e.0, Sub(At(t, p + e.0).value)) else e
    case Val(_) => if Lookup(t, p).Some? then (e.0, Val(Lookup(t, p).value)) else e
  }

  ghost function RereadSlots<V>(p: string, slots: seq<(string, Item<V>)>, t: Tree<V>): (r: seq<(string, Item<V>)>)
    ensures |r| == |slots| && forall i :: 0 <= i < |slots| ==> r[i] == RereadSlot(p, slots[i], t)
  {
    if slots == [] then [] else [RereadSlot(p, slots[0], t)] + RereadSlots(p, slots[1..], t)
  }

  ghost function Reread<V>(todo: seq<Todo<V>>, t: Tree<V>): (r: seq<Todo<V>>)
    ensures |r| == |todo| && forall i :: 0 <= i < |todo| ==> r[i] == Todo(todo[i].prefix, RereadSlots(todo[i].prefix, todo[i].slots, t))
  {
    if todo == [] then [] else [Todo(todo[0].prefix, RereadSlots(todo[0].prefix, todo[0].slots, t))] + Reread(todo[1..], t)
  }

  // ----- one step -----

  /** Entering the last slot of the top frame. */
  lemma RestDive<V>(todo: seq<Todo<V>>)
    requires todo != [] && todo[|todo| - 1].slots != []
    ensures var l := |todo| - 1;
      var (x, c) := todo[l].slots[|todo[l].slots| - 1];
      var less := todo[l].(slots := todo[l].slots[..|todo[l].slots| - 1]);
      Rest(todo) == match c
        case Val(v) => [(todo[l].prefix, v)] + Rest(todo[..l] + [less])
        case Sub(s) => Rest(todo[..l] + [less] + [Todo(todo[l].prefix + x, s.slots)])
  {
    var l := |todo| - 1;
    var (x, c) := todo[l].slots[|todo[l].slots| - 1];
    var less := todo[l].(slots := todo[l].slots[..|todo[l].slots| - 1]);
    var lesser := todo[..l] + [less];
    assert lesser[..l] == todo[..l] && lesser[l] == less;
    assert Rest(lesser) == Entries(less.prefix, less.slots) + Rest(todo[..l]);
    assert Rest(todo) == Yield(todo[l].prefix, (x, c)) + Entries(less.prefix, less.slots) + Rest(todo[..l]);
    Associate(Yield(todo[l].prefix, (x, c)), Entries(less.prefix, less.slots), Rest(todo[..l]));
    if c.Sub? {
      var more := todo[..l] + [less] + [Todo(todo[l].prefix + x, c.t.slots)];
      assert more[..l + 1] == todo[..l] + [less];
    }
  }

  lemma RestOne<V>(d: Todo<V>)
    ensures Rest([d]) == Entries(d.prefix, d.slots)
  {
    assert [d][..0] == [];
  }

  /** A frame with nothing left adds nothing. */
  lemma RestEmpty<V>(todo: seq<Todo<V>>)
    requires todo != [] && todo[|todo| - 1].slots == []
    ensures Rest(todo) == Rest(todo[..|todo| - 1])
  {
  }

  /** The slots of a node, entered from its parent frame, are all in order. */
  lemma EnterNode<V>(store: Store<V>, t: Tree<V>, w: string, c: Tree<V>)
    requires Compressed(t) && Rep(store, t) && At(t, w) == Some(c) && Compressed(c)
    ensures c.ref in store && store[c.ref] == Flat(c.slots)
    ensures TodoOk(store, t, c.ref, Todo(w, c.slots))
  {
    forall i | 0 <= i < |c.slots|
      ensures SlotOk(store, t, c.ref, w, c.slots[i])
    {
      KeyAt(c.slots, i);
      FlatKeys(c.slots, c.slots[i].0);
      if c.slots[i].1.Sub? {
        AtLabel(c, i);
        AtConcat(t, w, c.slots[i].0);
      }
    }
  }

  lemma LabelsFlat<V>(slots: seq<(string, Item<V>)>)
    ensures Labels(Flat(slots)) == Labels(slots)
  {
  }

  /** The frames and to-do lists after the top frame's last slot has become the current one. */
  ghost function Current<V>(todo: seq<Todo<V>>): seq<Todo<V>>
    requires todo != [] && todo[|todo| - 1].slots != []
  {
    var l := |todo| - 1;
    todo[..l] + [todo[l].(slots := todo[l].slots[..|todo[l].slots| - 1])]
  }

  /** The last key of the frame is found in its object, with what the slot says. */
  ghost predicate TopFound<V>(store: Store<V>, f: Frame, e: (string, Item<V>)) {
    && f.keys != [] && f.keys[|f.keys| - 1] == e.0
    && f.ref in store && IndexOf(store[f.ref], e.0) < |store[f.ref]| && store[f.ref][IndexOf(store[f.ref], e.0)].1 == Cell(e.1)
    && (e.1.Sub? <==> e.0 != "") && (e.1.Sub? ==> Good(e.1.t))
  }

  lemma DiveHere<V>(store: Store<V>, t: Tree<V>, p: string, path: seq<Frame>, todo: seq<Todo<V>>)
    requires path != [] && |todo| == |path| && todo[|todo| - 1].slots != []
    requires Ready(store, t, p, path, todo)
    ensures Busy(store, t, p, path, Current(todo))
    ensures TopFound(store, path[|path| - 1], todo[|todo| - 1].slots[|todo[|todo| - 1].slots| - 1])
  {
    DiveBusy(store, t, p, path, todo);
    hide Labels, At, Good, Flat, IndexOf, Busy;
  }

  lemma DiveBusy<V>(store: Store<V>, t: Tree<V>, p: string, path: seq<Frame>, todo: seq<Todo<V>>)
    requires Ready(store, t, p, path, todo) && path != []
    ensures Busy(store, t, p, path, Current(todo))
  {
    hide Labels, SlotOk, Busy;
    var l := |path| - 1;
    var less := todo[l].(slots := todo[l].slots[..|todo[l].slots| - 1]);
    LabelsInit(todo[l].slots);
    BusyKeys(store, t, p, path[..l], todo[..l]);
    TopBusy(store, t, p, path[..l], todo[..l], path[l], less);
    assert path == path[..l] + [path[l]];
  }

  lemma BusyKeys<V>(store: Store<V>, t: Tree<V>, p: string, path: seq<Frame>, todo: seq<Todo<V>>)
    requires Busy(store, t, p, path, todo)
    ensures |path| == |todo| && forall i :: 0 <= i < |path| ==> path[i].keys != []
  {
    hide Labels, TodoOk;
  }

  lemma LabelsInit<T>(m: seq<(string, T)>)
    requires m != []
    ensures |Labels(m)| == |m| && Labels(m)[..|m| - 1] == Labels(m[..|m| - 1])
  {
    hide *;
    var a, b := Labels(m), Labels(m[..|m| - 1]);
    assert |a| == |m| && |b| == |m| - 1;
    forall i | 0 <= i < |b| ensures a[..|m| - 1][i] == b[i] {
    }
  }

  /** One more frame in the middle of its work. */
  lemma TopBusy<V>(store: Store<V>, t: Tree<V>, p: string, path: seq<Frame>, todo: seq<Todo<V>>, f: Frame, d: Todo<V>)
    requires Busy(store, t, p, path, todo) && TodoOk(store, t, f.ref, d)
    requires f.keys != [] && f.keys[..|f.keys| - 1] == Labels(d.slots)
    requires |path| == |todo| && forall i :: 0 <= i < |path| ==> path[i].keys != []
    requires d.prefix == if path == [] then p else todo[|path| - 1].prefix + path[|path| - 1].keys[|path[|path| - 1].keys| - 1]
    ensures Busy(store, t, p, path + [f], todo + [d])
  {
    hide Labels, TodoOk;
    var path', todo' := path + [f], todo + [d];
    assert forall i :: 0 <= i < |path| ==> path'[i] == path[i] && todo'[i] == todo[i];
    forall i | 0 < i < |path'|
      ensures todo'[i].prefix == todo'[i - 1].prefix + path'[i - 1].keys[|path'[i - 1].keys| - 1]
    {
      if i < |path| { assert todo[i].prefix == todo[i - 1].prefix + path[i - 1].keys[|path[i - 1].keys| - 1]; }
    }
  }

  /** The to-do lists after the node below the last slot of the top frame has been entered. */
  ghost function Deeper<V>(todo: seq<Todo<V>>, c: Tree<V>): seq<Todo<V>>
    requires todo != [] && todo[|todo| - 1].slots != []
  {
    var l := |todo| - 1;
    Current(todo) + [Todo(todo[l].prefix + todo[l].slots[|todo[l].slots| - 1].0, c.slots)]
  }

  /** Entering the node below the current slot. */
  lemma DiveInto<V>(store: Store<V>, t: Tree<V>, p: string, path: seq<Frame>, todo: seq<Todo<V>>, c: Tree<V>, keys: seq<string>)
    requires todo != [] && todo[|todo| - 1].slots != []
    requires todo[|todo| - 1].slots[|todo[|todo| - 1].slots| - 1].1 == Sub(c)
    requires c.ref in store ==> keys == Labels(store[c.ref])
    requires Compressed(t) && Rep(store, t) && path != [] && Ready(store, t, p, path, todo)
    ensures c.ref in store && Ready(store, t, p, path + [Frame(c.ref, keys)], Deeper(todo, c))
  {
    hide Labels, Rep, Compressed, At, Flat;
    DiveHere(store, t, p, path, todo);
    var l := |path| - 1;
    var x := todo[l].slots[|todo[l].slots| - 1].0;
    GoodSlots(c);
    EnterNode(store, t, todo[l].prefix + x, c);
    LabelsFlat(c.slots);
    var path', todo' := path + [Frame(c.ref, keys)], Deeper(todo, c);
    assert path'[..l + 1] == path && todo'[..l + 1] == Current(todo);
  }

  lemma GoodSlots<V>(c: Tree<V>)
    requires Good(c)
    ensures c.slots != [] && Compressed(c)
  {
  }

  /** Dropping the current key of the top frame. */
  lemma BackHere<V>(store: Store<V>, t: Tree<V>, p: string, path: seq<Frame>, todo: seq<Todo<V>>)
    requires Busy(store, t, p, path, todo) && path != []
    ensures var l := |path| - 1;
      var keys := path[l].keys[..|path[l].keys| - 1];
      && path[l].keys != [] && |keys| == |todo[l].slots|
      && Busy(store, t, p, path[..l], todo[..l])
      && (keys != [] ==> Ready(store, t, p, path[..l] + [Frame(path[l].ref, keys)], todo))
  {
    hide TodoOk, Labels;
    var l := |path| - 1;
    var keys := path[l].keys[..|path[l].keys| - 1];
    if keys != [] {
      var path' := path[..l] + [Frame(path[l].ref, keys)];
      assert path'[..l] == path[..l];
    }
  }

  lemma BackDone<V>(store: Store<V>, t: Tree<V>, p: string)
    ensures Ready<V>(store, t, p, [], [])
  {
  }

  /** The stack over a node, before the first step. */
  lemma ReadyFirst<V>(store: Store<V>, t: Tree<V>, p: string, r: Ref, slots: seq<(string, Item<V>)>, keys: seq<string>)
    requires TodoOk(store, t, r, Todo(p, slots)) && keys == Labels(slots)
    ensures keys == [] ==> Ready<V>(store, t, p, [], []) && Rest<V>([]) == Entries(p, slots)
    ensures keys != [] ==> Ready(store, t, p, [Frame(r, keys)], [Todo(p, slots)]) && Rest([Todo(p, slots)]) == Entries(p, slots)
  {
    hide TodoOk, Labels;
    if keys != [] {
      RestOne(Todo(p, slots));
      assert |keys| == |slots|;
      assert [Frame(r, keys)][..0] == [] && [Todo(p, slots)][..0] == [];
    }
  }

  function KeysOf<T>(m: seq<(string, T)>): (ks: seq<string>)
    ensures ks == Labels(m)
  {
    if m == [] then [] else [m[0].0] + KeysOf(m[1..])
  }

  class RadixIterator<V> {
    const base: RadixMap<V>
    const prefix: string
    var path: seq<Frame>
    ghost var todo: seq<Todo<V>>

    ghost predicate Valid()
      reads this, base
    {
      base.Valid() && Ready(base.store, base.tree, prefix, path, todo)
    }

    /** What the iterator is going to yield. */
    ghost function Future(): seq<(string, V)>
      reads this
    {
      Rest(todo)
    }

    /** Iterate the view with root object `r` and prefix `p`, whose node the tree `view` describes. */
    constructor (m: RadixMap<V>, r: Ref, p: string, ghost view: Tree<V>)
      requires m.Valid() && r in m.store && m.store[r] == Flat(view.slots)
      requires TodoOk(m.store, m.tree, r, Todo(p, view.slots))
      ensures Valid() && base == m && prefix == p
      ensures Future() == Entries(p, view.slots)
      ensures view.slots != [] ==> path == [Frame(r, Labels(view.slots))] && todo == [Todo(p, view.slots)]
    {
      hide *;
      base := m;
      prefix := p;
      var keys := KeysOf(m.store[r]);
      path := if |keys| > 0 then [Frame(r, keys)] else [];
      todo := if |keys| > 0 then [Todo(p, view.slots)] else [];
      LabelsFlat(view.slots);
      new;
      ReadyFirst(m.store, m.tree, p, r, view.slots, keys);
      Assembled();
    }

    lemma Assembled()
      requires base.Valid() && Ready(base.store, base.tree, prefix, path, todo)
      ensures Valid() && Future() == Rest(todo)
    {
    }

    method Next() returns (r: Option<(string, V)>)
      requires Valid()
      modifies this
      ensures Valid()
      ensures if old(Future()) == [] then r == None && Future() == []
              else r == Some(old(Future())[0]) && Future() == old(Future())[1..]
    {
      if path == [] {
        return None;
      }
      var v := Dive();
      r := Some((prefix + Spell(path), v));
      Backtrack();
    }

    ghost predicate Working()
      reads this, base
    {
      base.Valid() && Busy(base.store, base.tree, prefix, path, todo)
    }

    /** Go down to the next value. */
    method Dive() returns (v: V)
      requires Valid() && path != []
      modifies this
      ensures Working() && path != [] && CanSpell()
      ensures old(Future()) == [(prefix + Spell(path), v)] + Future()
      decreases todo[|todo| - 1].slots[|todo[|todo| - 1].slots| - 1].1
    {
      hide Compressed, Rep, Flat, At, Labels, Rest, Entries, Ready, Busy, TodoOk, IndexOf, Good, Dense, Spell, Below;
      var l := |path| - 1;
      Shown();
      DiveHere(base.store, base.tree, prefix, path, todo);
      RestDive(todo);
      ghost var c := todo[l].slots[|todo[l].slots| - 1].1;
      var node, x := path[l].ref, path[l].keys[|path[l].keys| - 1];
      var cell := base.store[node][IndexOf(base.store[node], x)].1;
      if x == "" {
        SpellPrefix(base.store, base.tree, prefix, path, Current(todo));
        assert todo[l].prefix + x == todo[l].prefix;
        todo := Current(todo);
        v := cell.v;
      } else {
        ghost var keys := if c.t.ref in base.store then Labels(base.store[c.t.ref]) else [];
        DiveInto(base.store, base.tree, prefix, path, todo, c.t, keys);
        GoodSlots(c.t);
        todo := Deeper(todo, c.t);
        path := path + [Frame(cell.ref, KeysOf(base.store[cell.ref]))];
        v := Dive();
      }
    }

    lemma Shown()
      requires Valid() && path != []
      ensures |todo| == |path| && todo[|todo| - 1].slots != [] && Compressed(base.tree) && Rep(base.store, base.tree)
    {
    }

    /** The iterator outlives the deletion of a key it no longer owes. */
    lemma OutlivesDelete(store0: Store<V>, tree0: Tree<V>, k: string)
      requires base.Valid() && base.tree == Delete(tree0, k) && Deleted(store0, base.store, tree0, k)
      requires Compressed(tree0) && Rep(store0, tree0) && k in MapOf(tree0)
      requires Ready(store0, tree0, prefix, path, todo)
      requires !Owes(todo, k)
      ensures Valid()
    {
      hide Compressed, Rep, Deleted, Ready, Delete;
      ReadyAfterDelete(store0, base.store, tree0, k, prefix, path, todo);
    }

    /** And a new value for such a key. */
    lemma OutlivesSet(store0: Store<V>, tree0: Tree<V>, k: string, v: V, f: Ref)
      requires base.Valid() && base.tree == Insert(tree0, k, v, f)
      requires Compressed(tree0) && Rep(store0, tree0) && k in MapOf(tree0)
      requires var n := At(tree0, k);
        n.Some? && n.value.ref in store0 && base.store == store0[n.value.ref := Put(store0[n.value.ref], "", Leaf(v))]
      requires Ready(store0, tree0, prefix, path, todo)
      requires !Owes(todo, k)
      ensures Valid()
    {
      hide Compressed, Rep, Ready, Insert, Put;
      ReadyAfterSet(store0, tree0, k, v, f, prefix, path, todo);
    }

    /** Go on with what the map has become, where that can still be followed. */
    ghost method Refresh()
      requires base.Valid() && Ready(base.store, base.tree, prefix, path, Reread(todo, base.tree))
      modifies this`todo
      ensures Valid() && todo == Reread(old(todo), base.tree)
    {
      todo := Reread(todo, base.tree);
    }

    ghost predicate CanSpell()
      reads this
    {
      forall i :: 0 <= i < |path| ==> path[i].keys != []
    }

    lemma WorkingIs()
      requires Working()
      ensures base.Valid() && Busy(base.store, base.tree, prefix, path, todo) && |path| == |todo|
    {
    }

    /** Leave everything that is done. */
    method Backtrack()
      requires Working()
      modifies this
      ensures Valid() && Future() == old(Future())
      decreases |path|
    {
      hide Compressed, Rep, Flat, At, Labels, TodoOk, Ready, Busy, Rest, Below;
      WorkingIs();
      if path == [] {
        BackDone(base.store, base.tree, prefix);
        return;
      }
      var l := |path| - 1;
      BackHere(base.store, base.tree, prefix, path, todo);
      var keys := path[l].keys[..|path[l].keys| - 1];
      if |keys| > 0 {
        path := path[..l] + [Frame(path[l].ref, keys)];
      } else {
        RestEmpty(todo);
        path, todo := path[..l], todo[..l];
        Backtrack();
      }
    }
  }

  // ----- the view below a prefix -----

  /** `es` lists the entries of `m` whose key starts with `p`, each once. */
  ghost predicate ListsPrefix<V>(m: map<string, V>, p: string, es: seq<(string, V)>) {
    && DistinctKeys(es)
    && (forall i :: 0 <= i < |es| ==> p <= es[i].0 && es[i].0 in m && m[es[i].0] == es[i].1)
    && (forall k :: k in m && p <= k ==> exists i :: 0 <= i < |es| && es[i].0 == k)
  }

  ghost predicate IsView<V>(t: Tree<V>, p: string, view: Tree<V>) {
    Compressed(view) && forall x {:trigger Lookup(view, x)} :: Lookup(view, x) == Lookup(t, p + x)
  }

  lemma ViewLists<V>(t: Tree<V>, p: string, view: Tree<V>)
    requires Compressed(t) && IsView(t, p, view)
    ensures ListsPrefix(MapOf(t), p, Entries(p, view.slots))
  {
    hide Compressed, Lookup, Entries, MapOf;
    var es := Entries(p, view.slots);
    EntriesDistinct(p, view);
    forall i | 0 <= i < |es|
      ensures p <= es[i].0 && Lookup(t, es[i].0) == Some(es[i].1)
    {
      EntriesSound(p, view, i);
      assert p + es[i].0[|p|..] == es[i].0;
    }
    forall k | Lookup(t, k).Some? && p <= k
      ensures exists i :: 0 <= i < |es| && es[i].0 == k
    {
      assert p + k[|p|..] == k;
      assert Lookup(view, k[|p|..]).Some?;
      var i := EntriesComplete(p, view, k[|p|..]);
    }
  }

  lemma NodeIsView<V>(t: Tree<V>, p: string)
    requires Compressed(t) && At(t, p).Some?
    ensures IsView(t, p, At(t, p).value)
  {
    AtConcat(t, p, "");
    forall x {:trigger Lookup(At(t, p).value, x)} ensures Lookup(At(t, p).value, x) == Lookup(t, p + x) {
      AtConcat(t, p, x);
    }
  }

  /** Where a path that misses leaves the tree. */
  lemma {:induction false} TrackMiss<V>(t: Tree<V>, w: string) returns (u: string, n: Tree<V>)
    requires Compressed(t) && At(t, w) == None
    ensures At(t, u) == Some(n) && Compressed(n) && u <= w && u != w
    ensures EdgeOf(n.slots, w[|u|..]) == |n.slots|
    ensures Track(t, w) != [] && Track(t, w)[|Track(t, w)| - 1] == (n.ref, w[|u|..])
    decreases |w|
  {
    hide *;
    MissHere(t, w);
    var e := EdgeOf(t.slots, w);
    if e == |t.slots| {
      u, n := "", t;
      assert w[0..] == w;
    } else {
      var x, c := t.slots[e].0, t.slots[e].1.t;
      u, n := TrackMiss(c, w[|x|..]);
      MissJoin(t, e, x, c, u, w);
      u := x + u;
    }
  }

  lemma MissHere<V>(t: Tree<V>, w: string)
    requires Compressed(t) && At(t, w) == None
    ensures w != "" && At(t, "") == Some(t)
    ensures var e := EdgeOf(t.slots, w);
      if e < |t.slots| then
        var (x, c) := t.slots[e];
        x != "" && x <= w && c.Sub? && Compressed(c.t) && At(c.t, w[|x|..]) == None && Track(t, w) == [(t.ref, x)] + Track(c.t, w[|x|..])
      else e == |t.slots| && Track(t, w) == [(t.ref, w)]
  {
  }

  lemma MissJoin<V>(t: Tree<V>, e: nat, x: string, c: Tree<V>, u: string, w: string)
    requires Compressed(t) && e < |t.slots| && t.slots[e] == (x, Sub(c)) && x != "" && x <= w && u <= w[|x|..] && u != w[|x|..]
    ensures At(t, x + u) == At(c, u) && x + u <= w && x + u != w && w[|x|..][|u|..] == w[|x + u|..]
  {
    hide At, Dense;
    AtEdge(t, e, x + u);
    assert (x + u)[|x|..] == u;
    assert w == x + w[|x|..];
  }

  /** Inside an edge the view hangs on one synthetic edge. */
  lemma InsideIsView<V>(t: Tree<V>, u: string, n: Tree<V>, s: string, i: nat, r: Ref)
    requires Compressed(t) && At(t, u) == Some(n) && Compressed(n) && s != ""
    requires i < |n.slots| && s < n.slots[i].0
    ensures n.slots[i].1.Sub?
    ensures var (x, c) := n.slots[i];
      && IsView(t, u + s, Node(r, [(x[|s|..], c)]))
      && At(t, u + s + x[|s|..]) == Some(c.t) && Good(c.t)
  {
    hide At, Compressed, Lookup, Good, IndexOf, EdgeOf;
    InsideEnd(t, u, n, s, i);
    var (x, c) := n.slots[i];
    var view := Node(r, [(x[|s|..], c)]);
    InsideGood(n, i, x[|s|..], r);
    forall z {:trigger Lookup(view, z)}
      ensures Lookup(view, z) == Lookup(t, u + s + z)
    {
      LookupUnder(t, u, n, s, z);
      LookupInside(n, s, i, z, r);
    }
  }

  /** The edge leads where it did. */
  lemma InsideEnd<V>(t: Tree<V>, u: string, n: Tree<V>, s: string, i: nat)
    requires Compressed(t) && At(t, u) == Some(n) && Compressed(n) && i < |n.slots| && s < n.slots[i].0
    ensures n.slots[i].1.Sub? && At(t, u + s + n.slots[i].0[|s|..]) == Some(n.slots[i].1.t)
  {
    hide At, Compressed, EdgeOf;
    AtLabel(n, i);
    var x := n.slots[i].0;
    assert s + x[|s|..] == x && u + s + x[|s|..] == u + x;
    AtConcat(t, u, x);
  }

  lemma LookupUnder<V>(t: Tree<V>, u: string, n: Tree<V>, s: string, z: string)
    requires Compressed(t) && At(t, u) == Some(n)
    ensures Lookup(t, u + s + z) == Lookup(n, s + z)
  {
    AtConcat(t, u, s + z);
    assert u + s + z == u + (s + z);
  }

  lemma InsideGood<V>(n: Tree<V>, i: nat, y: string, r: Ref)
    requires Compressed(n) && i < |n.slots| && n.slots[i].0 != "" && y != ""
    ensures Compressed(Node(r, [(y, n.slots[i].1)])) && Good(n.slots[i].1.t)
  {
  }

  lemma PrefixRest(s: string, y: string, z: string)
    requires s + y <= s + z
    ensures y <= z
  {
    assert y == (s + y)[|s|..] && z == (s + z)[|s|..];
  }

  lemma KeyBranch<T>(m: seq<(string, T)>, i: nat)
    requires Siblings(m) && i < |m| && m[i].0 != ""
    ensures BranchOf(m, m[i].0[0]) == i
  {
  }

  lemma LookupInside<V>(n: Tree<V>, s: string, i: nat, z: string, r: Ref)
    requires Compressed(n) && s != "" && i < |n.slots| && s < n.slots[i].0 && n.slots[i].1.Sub?
    ensures var (x, c) := n.slots[i]; Lookup(Node(r, [(x[|s|..], c)]), z) == Lookup(n, s + z)
  {
    var (x, c) := n.slots[i];
    var y := x[|s|..];
    var view := Node(r, [(y, c)]);
    assert Compressed(view);
    if y <= z {
      assert x <= s + z by { assert x == s + y; }
      AtEdge(n, i, s + z);
      AtEdge(view, 0, z);
      assert (s + z)[|x|..] == z[|y|..];
    } else {
      if s + y <= s + z { PrefixRest(s, y, z); }
      BranchAt(n, x[0], s + z);
      KeyBranch(n.slots, i);
      if z == "" { assert LeafOf(view.slots) == None; }
    }
  }

  lemma NothingIsView<V>(t: Tree<V>, u: string, n: Tree<V>, s: string, r: Ref)
    requires Compressed(t) && At(t, u) == Some(n) && Compressed(n) && s != ""
    requires forall i :: 0 <= i < |n.slots| && n.slots[i].0 != "" ==> !(n.slots[i].0 <= s) && !(s <= n.slots[i].0)
    ensures IsView(t, u + s, Node(r, []))
  {
    hide Compressed, Lookup, At;
    var view: Tree<V> := Node(r, []);
    NothingThere<V>(r);
    forall z {:trigger Lookup(view, z)}
      ensures Lookup(t, u + s + z) == None
    {
      NothingUnder(t, u, n, s, z);
    }
  }

  lemma NothingThere<V>(r: Ref)
    ensures Compressed<V>(Node(r, [])) && forall z :: Lookup<V>(Node(r, []), z) == None
  {
  }

  lemma NothingUnder<V>(t: Tree<V>, u: string, n: Tree<V>, s: string, z: string)
    requires Compressed(t) && At(t, u) == Some(n) && Compressed(n) && s != ""
    requires forall i :: 0 <= i < |n.slots| && n.slots[i].0 != "" ==> !(n.slots[i].0 <= s) && !(s <= n.slots[i].0)
    ensures Lookup(t, u + s + z) == None
  {
    hide Compressed, EdgeOf;
    LookupUnder(t, u, n, s, z);
    NoEdgeInto(n, s, z);
  }

  lemma NoEdgeInto<V>(n: Tree<V>, s: string, z: string)
    requires Compressed(n) && s != ""
    requires forall i :: 0 <= i < |n.slots| && n.slots[i].0 != "" ==> !(n.slots[i].0 <= s) && !(s <= n.slots[i].0)
    ensures At(n, s + z) == None
  {
    var e := EdgeOf(n.slots, s + z);
    if e < |n.slots| { Comparable(n.slots[e].0, s, s + z); }
  }

  lemma Comparable(x: string, s: string, w: string)
    requires x <= w && s <= w
    ensures x <= s || s <= x
  {
    if |x| <= |s| { assert x == w[..|x|] == s[..|x|]; } else { assert s == w[..|s|] == x[..|s|]; }
  }

  /** Some label that starts with `s`, the first one. */
  function StartingWith<T>(m: seq<(string, T)>, s: string): (i: nat)
    ensures i <= |m|
    ensures i < |m| ==> m[i].0 != "" && s <= m[i].0
    ensures forall j :: 0 <= j < i && m[j].0 != "" ==> !(s <= m[j].0)
  {
    if m == [] then 0
    else if m[0].0 != "" && s <= m[0].0 then 0
    else 1 + StartingWith(m[1..], s)
  }

  /** `atPrefix(p)`, iterated. The view shares the node objects of the map; where `p`
      ends inside an edge it gets one object of its own, and where nothing starts
      with `p` an empty one. */
  method AtPrefix<V>(m: RadixMap<V>, p: string) returns (it: RadixIterator<V>)
    requires m.Valid()
    modifies m`store, m`next
    ensures m.Valid() && m.Content() == old(m.Content()) && fresh(it)
    ensures m.tree == old(m.tree) && Extends(old(m.store), m.store)
    ensures it.base == m && it.Valid()
    ensures ListsPrefix(m.Content(), p, it.Future())
  {
    ghost var view;
    var r;
    r, view := ViewRoot(m, p);
    ViewLists(m.tree, p, view);
    it := new RadixIterator(m, r, p, view);
  }

  /** Objects may have been added. */
  ghost predicate Extends<V>(store: Store<V>, store': Store<V>) {
    forall r :: r in store ==> r in store' && store'[r] == store[r]
  }

  method ViewRoot<V>(m: RadixMap<V>, p: string) returns (r: Ref, ghost view: Tree<V>)
    requires m.Valid()
    modifies m`store, m`next
    ensures m.Valid() && m.tree == old(m.tree) && Extends(old(m.store), m.store)
    ensures r in m.store && m.store[r] == Flat(view.slots)
    ensures TodoOk(m.store, m.tree, r, Todo(p, view.slots)) && IsView(m.tree, p, view)
  {
    hide At, Compressed, Lookup, Flat, Rep, IsView, TodoOk, Track, EdgeOf, StartingWith;
    m.AtRoot();
    var node, path := m.TrackDown(m.root, p, m.tree, "");
    if node.Some? {
      r, view := node.value, At(m.tree, p).value;
      NodeIsView(m.tree, p);
      AtConcat(m.tree, p, "");
      EnterNode(m.store, m.tree, p, view);
      return;
    }
    ghost var u, n := TrackMiss(m.tree, p);
    var (e, s) := path[|path| - 1];
    EnterNode(m.store, m.tree, u, n);
    assert u + s == p;
    var here := m.store[e];
    var i := StartingWith(here, s);
    r := m.next;
    view := ViewTree(m.tree, u, n, s, i, r);
    m.NewObject(if i < |here| then [(here[i].0[|s|..], here[i].1)] else []);
    ViewStored(m.store, m.tree, u, n, s, i, r);
  }

  ghost function ViewTree<V>(t: Tree<V>, u: string, n: Tree<V>, s: string, i: nat, r: Ref): Tree<V> {
    if i < |n.slots| && |s| <= |n.slots[i].0| then Node(r, [(n.slots[i].0[|s|..], n.slots[i].1)]) else Node(r, [])
  }

  lemma ViewStored<V>(store: Store<V>, t: Tree<V>, u: string, n: Tree<V>, s: string, i: nat, r: Ref)
    requires Compressed(t) && At(t, u) == Some(n) && Compressed(n) && s != "" && EdgeOf(n.slots, s) == |n.slots|
    requires i == StartingWith(Flat(n.slots), s) && r in store
    requires store[r] == if i < |n.slots| then [(n.slots[i].0[|s|..], Cell(n.slots[i].1))] else []
    ensures var view := ViewTree(t, u, n, s, i, r);
      store[r] == Flat(view.slots) && TodoOk(store, t, r, Todo(u + s, view.slots)) && IsView(t, u + s, view)
  {
    hide At, Compressed, Lookup, IsView;
    if i < |n.slots| {
      assert Flat(n.slots)[i].0 == n.slots[i].0;
      assert n.slots[i].0 != s;
      InsideIsView(t, u, n, s, i, r);
      assert IndexOf(store[r], n.slots[i].0[|s|..]) == 0;
    } else {
      forall j | 0 <= j < |n.slots| && n.slots[j].0 != "" ensures !(s <= n.slots[j].0) {
        assert Flat(n.slots)[j].0 == n.slots[j].0;
      }
      NothingIsView(t, u, n, s, r);
    }
  }

  ghost function Doomed<V>(seen: seq<(string, V)>, doomed: set<string>): set<string> {
    if seen == [] then {}
    else Doomed(seen[..|seen| - 1], doomed) + (if seen[|seen| - 1].0 in doomed then {seen[|seen| - 1].0} else {})
  }

  lemma {:induction false} DoomedAre<V>(seen: seq<(string, V)>, doomed: set<string>, k: string)
    ensures k in Doomed(seen, doomed) <==> k in doomed && exists i :: 0 <= i < |seen| && seen[i].0 == k
  {
    if seen != [] {
      DoomedAre(seen[..|seen| - 1], doomed, k);
    }
  }

  lemma NoneDoomed<V>(m: map<string, V>, doomed: set<string>)
    ensures m - Doomed<V>([], doomed) == m
  {
  }

  lemma AllDoomed<V>(m: map<string, V>, p: string, seen: seq<(string, V)>, doomed: set<string>)
    requires ListsPrefix(m, p, seen)
    ensures m - Doomed(seen, doomed) == m - (set k | k in doomed && p <= k)
  {
    forall k | k in m
      ensures k in Doomed(seen, doomed) <==> k in doomed && p <= k
    {
      DoomedAre(seen, doomed, k);
    }
  }

  /** Walk a view and delete any of the keys as they are yielded: every entry of the
      original map below the prefix is seen exactly once. */
  method Sweep<V>(m: RadixMap<V>, p: string, doomed: set<string>) returns (seen: seq<(string, V)>)
    requires m.Valid()
    modifies m
    ensures m.Valid()
    ensures ListsPrefix(old(m.Content()), p, seen)
    ensures m.Content() == old(m.Content()) - (set k | k in doomed && p <= k)
  {
    hide *;
    ghost var content := m.Content();
    var it := AtPrefix(m, p);
    ghost var all := it.Future();
    seen := [];
    NoneDoomed(content, doomed);
    while true
      invariant m.Valid() && it.base == m && it.Valid() && fresh(it)
      invariant |seen| <= |all| && seen == all[..|seen|] && it.Future() == all[|seen|..]
      invariant m.Content() == content - Doomed(seen, doomed)
      decreases |all| - |seen|
    {
      var e := it.Next();
      if e == None {
        assert seen == all;
        break;
      }
      var k := e.value.0;
      ghost var i := |seen|;
      SweepKey(content, p, all, seen, doomed);
      seen := seen + [e.value];
      if k in doomed {
        DeleteYielded(m, it, k, all, i);
      }
    }
    AllDoomed(content, p, seen, doomed);
  }

  lemma SweepKey<V>(m: map<string, V>, p: string, all: seq<(string, V)>, seen: seq<(string, V)>, doomed: set<string>)
    requires ListsPrefix(m, p, all) && |seen| < |all| && seen == all[..|seen|]
    ensures var (k, v) := all[|seen|];
      && k in m - Doomed(seen, doomed)
      && seen + [all[|seen|]] == all[..|seen| + 1]
      && m - Doomed(seen + [all[|seen|]], doomed) == m - Doomed(seen, doomed) - (if k in doomed then {k} else {})
  {
    var (k, v) := all[|seen|];
    DoomedAre(seen, doomed, k);
    var more := seen + [all[|seen|]];
    assert more[..|more| - 1] == seen;
  }

  /** Delete the key the iterator has just yielded. */
  method DeleteYielded<V>(m: RadixMap<V>, it: RadixIterator<V>, k: string, ghost all: seq<(string, V)>, ghost i: nat)
    requires m.Valid() && it.base == m && it.Valid() && k in m.Content()
    requires DistinctKeys(all) && i < |all| && all[i].0 == k && it.Future() == all[i + 1..]
    modifies m
    ensures m.Valid() && it.Valid() && it.Future() == old(it.Future())
    ensures m.Content() == old(m.Content()) - {k}
  {
    NotOwed(it.todo, all, i);
    m.AtRoot();
    m.Delete(k);
    it.OutlivesDelete(old(m.store), old(m.tree), k);
  }

  lemma NotOwed<V>(todo: seq<Todo<V>>, all: seq<(string, V)>, i: nat)
    requires DistinctKeys(all) && i < |all| && Rest(todo) == all[i + 1..]
    ensures !Owes(todo, all[i].0)
  {
    forall j | 0 <= j < |Rest(todo)| ensures Rest(todo)[j].0 != all[i].0 {
      assert Rest(todo)[j] == all[i + 1 + j];
    }
  }
}

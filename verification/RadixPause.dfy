/** What becomes of a running iterator while others change keys that it still owes. */
module RadixPauses {
  import opened JsMaps
  import opened RadixTree
  import opened RadixStore
  import opened RadixEntries
  import opened RadixIterators

  // ----- how often a key is still owed -----

  ghost function Occ<V>(es: seq<(string, V)>, k: string): nat {
    if es == [] then 0
    else Occ(es[..|es| - 1], k) + if es[|es| - 1].0 == k then 1 else 0
  }

  lemma {:induction false} OccConcat<V>(a: seq<(string, V)>, b: seq<(string, V)>, k: string)
    ensures Occ(a + b, k) == Occ(a, k) + Occ(b, k)
    decreases |b|
  {
    if b == [] {
      assert a + b == a;
    } else {
      var l := |b| - 1;
      assert (a + b)[..|a + b| - 1] == a + b[..l];
      OccConcat(a, b[..l], k);
    }
  }

  lemma {:induction false} OccIn<V>(es: seq<(string, V)>, k: string)
    ensures Occ(es, k) > 0 <==> exists i :: 0 <= i < |es| && es[i].0 == k
  {
    if es != [] {
      var l := |es| - 1;
      OccIn(es[..l], k);
      if i :| 0 <= i < |es| && es[i].0 == k && i < l { assert es[..l][i].0 == k; }
    }
  }

  lemma {:induction false} DistinctOcc<V>(es: seq<(string, V)>, k: string)
    requires DistinctKeys(es)
    ensures Occ(es, k) <= 1
  {
    if es != [] {
      var l := |es| - 1;
      assert forall i :: 0 <= i < l ==> es[..l][i] == es[i];
      DistinctOcc(es[..l], k);
      OccIn(es[..l], k);
    }
  }

  lemma OccTwice<V>(es: seq<(string, V)>, i: nat, j: nat)
    requires i < j < |es| && es[i].0 == es[j].0
    ensures Occ(es, es[i].0) > 1
  {
    hide Occ;
    assert es[..j][i] == es[i] && es[j..][0] == es[j] && es[..j] + es[j..] == es;
    OccConcat(es[..j], es[j..], es[i].0);
    OccIn(es[..j], es[i].0);
    OccIn(es[j..], es[i].0);
  }

  lemma OccDistinct<V>(es: seq<(string, V)>)
    ensures DistinctKeys(es) <==> forall k :: Occ(es, k) <= 1
  {
    hide Occ;
    if DistinctKeys(es) {
      forall k ensures Occ(es, k) <= 1 { DistinctOcc(es, k); }
    } else {
      var i, j :| 0 <= i < j < |es| && es[i].0 == es[j].0;
      OccTwice(es, i, j);
    }
  }

  /** How many remaining slots lead to a key. Labels alone decide it. */
  ghost function LeadSlots<V>(p: string, slots: seq<(string, Item<V>)>, k: string): nat {
    if slots == [] then 0
    else LeadSlots(p, slots[..|slots| - 1], k) + if Clear(p, slots[|slots| - 1], k) then 0 else 1
  }

  ghost function Leads<V>(todo: seq<Todo<V>>, k: string): nat {
    if todo == [] then 0
    else Leads(todo[..|todo| - 1], k) + LeadSlots(todo[|todo| - 1].prefix, todo[|todo| - 1].slots, k)
  }

  /** A key occurs in an edge's subtree once or not at all. */
  lemma OccBelow<V>(p: string, c: Tree<V>, k: string)
    requires Compressed(c)
    ensures Occ(Entries(p, c.slots), k) == if p <= k && Lookup(c, k[|p|..]).Some? then 1 else 0
  {
    hide Compressed, Lookup, Entries, Occ;
    var es := Entries(p, c.slots);
    EntriesDistinct(p, c);
    OccDistinct(es);
    OccIn(es, k);
    if p <= k && Lookup(c, k[|p|..]).Some? {
      assert p + k[|p|..] == k;
      var i := EntriesComplete(p, c, k[|p|..]);
    }
    if i :| 0 <= i < |es| && es[i].0 == k {
      EntriesSound(p, c, i);
    }
  }

  lemma YieldOcc<V>(store: Store<V>, t: Tree<V>, r: Ref, p: string, e: (string, Item<V>), k: string)
    requires Compressed(t) && SlotOk(store, t, r, p, e)
    ensures Occ(Yield(p, e), k) == if Lookup(t, k).Some? && !Clear(p, e, k) then 1 else 0
  {
    hide Compressed, IndexOf, Good, At, LeafOf, Cell, Occ, Entries;
    if e.1.Sub? {
      var w := p + e.0;
      GoodCompressed(e.1.t);
      OccBelow(w, e.1.t, k);
      if w <= k { EdgeLookup(t, w, e.1.t, k); }
    } else {
      OccOne(p, e.1.v, k);
    }
  }

  lemma OccOne<V>(p: string, v: V, k: string)
    ensures Occ([(p, v)], k) == if k == p then 1 else 0
  {
    assert [(p, v)][..0] == [];
  }

  lemma EdgeLookup<V>(t: Tree<V>, w: string, c: Tree<V>, k: string)
    requires Compressed(t) && At(t, w) == Some(c) && w <= k
    ensures Lookup(t, k) == Lookup(c, k[|w|..])
  {
    assert k == w + k[|w|..];
    AtConcat(t, w, k[|w|..]);
  }

  lemma GoodCompressed<V>(c: Tree<V>)
    requires Good(c)
    ensures Compressed(c)
  {
  }

  lemma YieldCurrent<V>(store: Store<V>, t: Tree<V>, r: Ref, p: string, e: (string, Item<V>), i: nat)
    requires Compressed(t) && SlotOk(store, t, r, p, e) && i < |Yield(p, e)|
    ensures Lookup(t, Yield(p, e)[i].0) == Some(Yield(p, e)[i].1)
  {
    hide Compressed, IndexOf, Good, At, LeafOf, Cell, Entries;
    if e.1.Sub? {
      GoodCompressed(e.1.t);
      EntriesSound(p + e.0, e.1.t, i);
      EdgeLookup(t, p + e.0, e.1.t, Yield(p, e)[i].0);
    }
  }

  lemma {:induction false} EntriesOcc<V>(store: Store<V>, t: Tree<V>, r: Ref, d: Todo<V>, k: string)
    requires Compressed(t) && TodoOk(store, t, r, d)
    ensures Occ(Entries(d.prefix, d.slots), k) == if Lookup(t, k).Some? then LeadSlots(d.prefix, d.slots, k) else 0
    decreases |d.slots|
  {
    hide Compressed, SlotOk, Lookup, Clear;
    if d.slots != [] {
      var l := |d.slots| - 1;
      EntriesOcc(store, t, r, d.(slots := d.slots[..l]), k);
      assert TodoOk(store, t, r, d) ==> SlotOk(store, t, r, d.prefix, d.slots[l]);
      YieldOcc(store, t, r, d.prefix, d.slots[l], k);
      OccConcat(Yield(d.prefix, d.slots[l]), Entries(d.prefix, d.slots[..l]), k);
    }
  }

  lemma {:induction false} EntriesCurrent<V>(store: Store<V>, t: Tree<V>, r: Ref, d: Todo<V>, i: nat)
    requires Compressed(t) && TodoOk(store, t, r, d) && i < |Entries(d.prefix, d.slots)|
    ensures Lookup(t, Entries(d.prefix, d.slots)[i].0) == Some(Entries(d.prefix, d.slots)[i].1)
    decreases |d.slots|
  {
    hide Compressed, SlotOk, Lookup;
    var l := |d.slots| - 1;
    assert TodoOk(store, t, r, d) ==> SlotOk(store, t, r, d.prefix, d.slots[l]);
    var n := |Yield(d.prefix, d.slots[l])|;
    if i < n {
      YieldCurrent(store, t, r, d.prefix, d.slots[l], i);
    } else {
      EntriesCurrent(store, t, r, d.(slots := d.slots[..l]), i - n);
    }
  }

  /** Exactly the keys that are still there and that a slot leads to are owed. */
  lemma {:induction false} RestOcc<V>(store: Store<V>, t: Tree<V>, path: seq<Frame>, todo: seq<Todo<V>>, k: string)
    requires Compressed(t) && Frames(store, t, path, todo)
    ensures Occ(Rest(todo), k) == if Lookup(t, k).Some? then Leads(todo, k) else 0
    decreases |todo|
  {
    hide Compressed, TodoOk, Lookup, LeadSlots, Entries;
    if todo != [] {
      var l := |todo| - 1;
      RestOcc(store, t, path[..l], todo[..l], k);
      EntriesOcc(store, t, path[l].ref, todo[l], k);
      OccConcat(Entries(todo[l].prefix, todo[l].slots), Rest(todo[..l]), k);
    }
  }

  /** They are owed with the values they have. */
  lemma {:induction false} RestCurrent<V>(store: Store<V>, t: Tree<V>, path: seq<Frame>, todo: seq<Todo<V>>, i: nat)
    requires Compressed(t) && Frames(store, t, path, todo) && i < |Rest(todo)|
    ensures Lookup(t, Rest(todo)[i].0) == Some(Rest(todo)[i].1)
    decreases |todo|
  {
    hide Compressed, TodoOk, Lookup, Entries;
    var l := |todo| - 1;
    var n := |Entries(todo[l].prefix, todo[l].slots)|;
    if i < n {
      EntriesCurrent(store, t, path[l].ref, todo[l], i);
    } else {
      RestCurrent(store, t, path[..l], todo[..l], i - n);
    }
  }

  // ----- reading the remaining slots again -----

  lemma {:induction false} LeadSlotsReread<V>(p: string, slots: seq<(string, Item<V>)>, t: Tree<V>, k: string)
    ensures LeadSlots(p, RereadSlots(p, slots, t), k) == LeadSlots(p, slots, k)
    decreases |slots|
  {
    hide RereadSlots;
    if slots != [] {
      var l := |slots| - 1;
      LeadSlotsReread(p, slots[..l], t, k);
      assert RereadSlots(p, slots, t)[..l] == RereadSlots(p, slots[..l], t);
    }
  }

  lemma {:induction false} LeadsReread<V>(todo: seq<Todo<V>>, t: Tree<V>, k: string)
    ensures Leads(Reread(todo, t), k) == Leads(todo, k)
    decreases |todo|
  {
    hide Reread, RereadSlots, LeadSlots;
    if todo != [] {
      var l := |todo| - 1;
      LeadsReread(todo[..l], t, k);
      assert Reread(todo, t)[..l] == Reread(todo[..l], t);
      LeadSlotsReread(todo[l].prefix, todo[l].slots, t, k);
    }
  }

  /** No owed key is gone. */
  ghost predicate Remain<V>(todo: seq<Todo<V>>, t: Tree<V>) {
    forall k :: Owes(todo, k) ==> Lookup(t, k).Some?
  }

  ghost predicate Shrinks<V>(t: Tree<V>, t': Tree<V>) {
    forall k :: Lookup(t', k).Some? ==> Lookup(t, k).Some?
  }

  /** After a change that only takes keys away, none of them owed, the iterator owes the same keys,
      each as often as before, and with the values they have now. */
  lemma OwedAgain<V>(store: Store<V>, t: Tree<V>, store': Store<V>, t': Tree<V>, p: string, path: seq<Frame>, todo: seq<Todo<V>>)
    requires Compressed(t) && Compressed(t') && Shrinks(t, t') && Remain(todo, t')
    requires Ready(store, t, p, path, todo) && Ready(store', t', p, path, Reread(todo, t'))
    ensures forall k :: Occ(Rest(Reread(todo, t')), k) == Occ(Rest(todo), k)
    ensures forall i :: 0 <= i < |Rest(Reread(todo, t'))| ==>
      Lookup(t', Rest(Reread(todo, t'))[i].0) == Some(Rest(Reread(todo, t'))[i].1)
  {
    hide Compressed, Ready, Frames, Lookup, Occ, Leads, Rest, Reread;
    FramesOf(store, t, p, path, todo);
    FramesOf(store', t', p, path, Reread(todo, t'));
    forall k ensures Occ(Rest(Reread(todo, t')), k) == Occ(Rest(todo), k) {
      RestOcc(store, t, path, todo, k);
      RestOcc(store', t', path, Reread(todo, t'), k);
      LeadsReread(todo, t', k);
      OccIn(Rest(todo), k);
      assert Occ(Rest(todo), k) > 0 ==> Owes(todo, k);
    }
    forall i | 0 <= i < |Rest(Reread(todo, t'))|
      ensures Lookup(t', Rest(Reread(todo, t'))[i].0) == Some(Rest(Reread(todo, t'))[i].1)
    {
      RestCurrent(store', t', path, Reread(todo, t'), i);
    }
  }

  /** Nothing is owed that was not owed. */
  lemma OwedBefore<V>(store: Store<V>, t: Tree<V>, store': Store<V>, t': Tree<V>, p: string, path: seq<Frame>,
                      todo: seq<Todo<V>>, k: string)
    requires Compressed(t) && Compressed(t') && Shrinks(t, t')
    requires Ready(store, t, p, path, todo) && Ready(store', t', p, path, Reread(todo, t'))
    requires Owes(Reread(todo, t'), k)
    ensures Owes(todo, k)
  {
    hide Compressed, Ready, Frames, Lookup, Occ, Leads, Rest, Reread;
    FramesOf(store, t, p, path, todo);
    FramesOf(store', t', p, path, Reread(todo, t'));
    RestOcc(store, t, path, todo, k);
    RestOcc(store', t', path, Reread(todo, t'), k);
    LeadsReread(todo, t', k);
    OccIn(Rest(todo), k);
    OccIn(Rest(Reread(todo, t')), k);
  }

  lemma SlotReread<V>(store: Store<V>, t: Tree<V>, r: Ref, p: string, e: (string, Item<V>))
    requires SlotOk(store, t, r, p, e)
    ensures RereadSlot(p, e, t) == e
  {
    hide IndexOf, Good, At, LeafOf, Cell;
  }

  /** What is good as it stands is read again as it stands. */
  lemma ReadAgain<V>(store: Store<V>, t: Tree<V>, p: string, path: seq<Frame>, todo: seq<Todo<V>>)
    requires Ready(store, t, p, path, todo)
    ensures Reread(todo, t) == todo
  {
    hide Ready, SlotOk, RereadSlot, RereadSlots, Reread;
    FramesOf(store, t, p, path, todo);
    forall i | 0 <= i < |todo| ensures Reread(todo, t)[i] == todo[i] {
      forall j | 0 <= j < |todo[i].slots|
        ensures RereadSlots(todo[i].prefix, todo[i].slots, t)[j] == todo[i].slots[j]
      {
        assert SlotOk(store, t, path[i].ref, todo[i].prefix, todo[i].slots[j]);
        SlotReread(store, t, path[i].ref, todo[i].prefix, todo[i].slots[j]);
      }
      assert RereadSlots(todo[i].prefix, todo[i].slots, t) == todo[i].slots;
    }
  }

  lemma SlotTwice<V>(store: Store<V>, t1: Tree<V>, t2: Tree<V>, r: Ref, p: string, e: (string, Item<V>))
    requires SlotOk(store, t2, r, p, RereadSlot(p, RereadSlot(p, e, t1), t2))
    ensures RereadSlot(p, RereadSlot(p, e, t1), t2) == RereadSlot(p, e, t2)
  {
    hide IndexOf, Good, At, LeafOf, Cell;
  }

  /** Reading twice comes to reading once, at the end. */
  lemma ReadTwice<V>(store: Store<V>, t1: Tree<V>, t2: Tree<V>, p: string, path: seq<Frame>, todo: seq<Todo<V>>)
    requires Ready(store, t2, p, path, Reread(Reread(todo, t1), t2))
    ensures Reread(Reread(todo, t1), t2) == Reread(todo, t2)
  {
    hide Ready, SlotOk, RereadSlot, RereadSlots, Reread;
    var once, twice := Reread(todo, t2), Reread(Reread(todo, t1), t2);
    FramesOf(store, t2, p, path, twice);
    forall i | 0 <= i < |todo| ensures twice[i] == once[i] {
      var q := todo[i].prefix;
      forall j | 0 <= j < |todo[i].slots|
        ensures twice[i].slots[j] == once[i].slots[j]
      {
        assert SlotOk(store, t2, path[i].ref, q, twice[i].slots[j]);
        SlotTwice(store, t1, t2, path[i].ref, q, todo[i].slots[j]);
      }
      assert twice[i].slots == once[i].slots;
    }
  }

  // ----- single changes -----

  /** A new value for a key that is there: every slot can still be followed. */
  lemma SlotReset<V>(store: Store<V>, store': Store<V>, t: Tree<V>, k: string, v: V, f: Ref, r: Ref, p: string, e: (string, Item<V>))
    requires Compressed(t) && Rep(store, t) && At(t, k).Some?
    requires At(t, k).value.ref in store && store' == store[At(t, k).value.ref := Put(store[At(t, k).value.ref], "", Leaf(v))]
    requires SlotOk(store, t, r, p, e)
    ensures SlotOk(store', Insert(t, k, v, f), r, p, RereadSlot(p, e, Insert(t, k, v, f)))
  {
    if Clear(p, e, k) {
      SlotAfterSet(store, store', t, k, v, f, r, p, e);
      InsertGood(t, k, v, f);
      SlotReread(store', Insert(t, k, v, f), r, p, e);
    } else if e.1.Sub? {
      EdgeReset(store, store', t, k, v, f, r, p, e.0, e.1.t);
    } else {
      LeafReset(store, store', t, k, v, f, r, e.1.v);
    }
  }

  lemma EdgeReset<V>(store: Store<V>, store': Store<V>, t: Tree<V>, k: string, v: V, f: Ref, r: Ref, p: string, x: string, c: Tree<V>)
    requires Compressed(t) && At(t, k).Some? && p + x <= k
    requires At(t, k).value.ref in store && store' == store[At(t, k).value.ref := Put(store[At(t, k).value.ref], "", Leaf(v))]
    requires SlotOk(store, t, r, p, (x, Sub(c)))
    ensures SlotOk(store', Insert(t, k, v, f), r, p, RereadSlot(p, (x, Sub(c)), Insert(t, k, v, f)))
  {
    hide Compressed, Dense, Insert, IndexOf, Put;
    InsertAt(t, k, v, f, p + x);
    InsertGood(c, k[|p + x|..], v, f);
    InsertRef(c, k[|p + x|..], v, f);
    if r == At(t, k).value.ref { PutOther(store[r], x, Leaf(v)); }
  }

  lemma LeafReset<V>(store: Store<V>, store': Store<V>, t: Tree<V>, k: string, v: V, f: Ref, r: Ref, u: V)
    requires Compressed(t) && At(t, k).Some?
    requires At(t, k).value.ref in store && store' == store[At(t, k).value.ref := Put(store[At(t, k).value.ref], "", Leaf(v))]
    requires SlotOk(store, t, r, k, ("", Val(u)))
    ensures SlotOk(store', Insert(t, k, v, f), r, k, RereadSlot(k, ("", Val(u)), Insert(t, k, v, f)))
  {
    hide Compressed, Dense, Insert;
    var n := At(t, k).value;
    InsertAt(t, k, v, f, k);
    AtConcat(t, k, "");
    InsertGood(n, "", v, f);
    InsertRef(n, "", v, f);
    PutThere(store[r], Leaf(v));
    InsertLookup(t, k, v, f, k);
  }

  lemma PutThere<T>(m: seq<(string, T)>, v: T)
    ensures var d := Put(m, "", v); IndexOf(d, "") < |d| && d[IndexOf(d, "")].1 == v
  {
    var d, i := Put(m, "", v), IndexOf(m, "");
    if i < |m| {
      assert d[i] == ("", v);
      assert forall j :: 0 <= j < i ==> d[j].0 != "";
    } else {
      assert d[|m|] == ("", v) && forall j :: 0 <= j < |m| ==> m[j].0 != "" && d[j] == m[j];
    }
  }

  lemma ReadyReset<V>(store: Store<V>, t: Tree<V>, k: string, v: V, f: Ref, p: string, path: seq<Frame>, todo: seq<Todo<V>>)
    requires Compressed(t) && Rep(store, t) && At(t, k).Some? && At(t, k).value.ref in store
    requires Ready(store, t, p, path, todo)
    ensures var r, t' := At(t, k).value.ref, Insert(t, k, v, f);
      Ready(store[r := Put(store[r], "", Leaf(v))], t', p, path, Reread(todo, t'))
  {
    hide Compressed, Rep, Ready, SlotOk, Insert, At, Put, RereadSlot, RereadSlots, Reread;
    var r, t' := At(t, k).value.ref, Insert(t, k, v, f);
    var store' := store[r := Put(store[r], "", Leaf(v))];
    FramesOf(store, t, p, path, todo);
    forall i, j | 0 <= i < |path| && 0 <= j < |todo[i].slots|
      ensures SlotOk(store', t', path[i].ref, todo[i].prefix, RereadSlot(todo[i].prefix, todo[i].slots[j], t'))
    {
      SlotReset(store, store', t, k, v, f, path[i].ref, todo[i].prefix, todo[i].slots[j]);
    }
    ReadyReread(store, store', t, t', p, path, todo);
  }

  /** Reading again changes neither labels nor paths. */
  lemma ReadyReread<V>(store: Store<V>, store': Store<V>, t: Tree<V>, t': Tree<V>, p: string, path: seq<Frame>, todo: seq<Todo<V>>)
    requires Ready(store, t, p, path, todo)
    requires forall i, j :: 0 <= i < |path| && 0 <= j < |todo[i].slots| ==>
      SlotOk(store', t', path[i].ref, todo[i].prefix, RereadSlot(todo[i].prefix, todo[i].slots[j], t'))
    ensures Ready(store', t', p, path, Reread(todo, t'))
  {
    hide Ready, SlotOk, RereadSlot, RereadSlots, Reread, Labels;
    FramesOf(store, t, p, path, todo);
    var again := Reread(todo, t');
    forall i | 0 <= i < |path|
      ensures TodoOk(store', t', path[i].ref, again[i]) && Labels(again[i].slots) == Labels(todo[i].slots)
    {
      forall j | 0 <= j < |todo[i].slots| ensures again[i].slots[j].0 == todo[i].slots[j].0 {
        RereadLabel(todo[i].prefix, todo[i].slots[j], t');
      }
    }
    ReadyAlike(store, store', t, t', p, path, todo, again);
  }

  lemma ReadyAlike<V>(store: Store<V>, store': Store<V>, t: Tree<V>, t': Tree<V>, p: string, path: seq<Frame>,
                      todo: seq<Todo<V>>, again: seq<Todo<V>>)
    requires Ready(store, t, p, path, todo) && Frames(store', t', path, again)
    requires forall i :: 0 <= i < |path| ==> again[i].prefix == todo[i].prefix && Labels(again[i].slots) == Labels(todo[i].slots)
    ensures Ready(store', t', p, path, again)
  {
    hide TodoOk, Labels, Busy;
    if path != [] {
      var l := |path| - 1;
      BusyKeys(store, t, p, path[..l], todo[..l]);
      BusyAlike(store, store', t, t', p, path[..l], todo[..l], again[..l]);
      assert |again[l].slots| == |Labels(again[l].slots)| == |todo[l].slots|;
      assert again[l].prefix == todo[l].prefix;
      if l > 0 { assert again[l - 1].prefix == todo[l - 1].prefix; }
    }
  }

  lemma BusyAlike<V>(store: Store<V>, store': Store<V>, t: Tree<V>, t': Tree<V>, p: string, path: seq<Frame>,
                     todo: seq<Todo<V>>, again: seq<Todo<V>>)
    requires Busy(store, t, p, path, todo) && Frames(store', t', path, again)
    requires forall i :: 0 <= i < |path| ==> again[i].prefix == todo[i].prefix && Labels(again[i].slots) == Labels(todo[i].slots)
    ensures Busy(store', t', p, path, again)
  {
    hide TodoOk, Labels;
  }

  lemma RereadLabel<V>(p: string, e: (string, Item<V>), t: Tree<V>)
    ensures RereadSlot(p, e, t).0 == e.0
  {
  }

  /** Objects are added: nothing changes. */
  lemma ReadyExtended<V>(store: Store<V>, store': Store<V>, t: Tree<V>, p: string, path: seq<Frame>, todo: seq<Todo<V>>)
    requires Ready(store, t, p, path, todo) && Extends(store, store')
    ensures Ready(store', t, p, path, todo)
  {
    hide Ready, IndexOf, At, Good;
    ReadyFrames(store, store', t, t, p, path, todo);
  }
}

/** When a running iterator survives the deletion of a key that it still owes, and when it survives a new key. */
module RadixOwed {
  import opened JsMaps
  import opened RadixTree
  import opened RadixStore
  import opened RadixEntries
  import opened RadixMaps
  import opened RadixIterators
  import opened RadixPauses

  // ----- what the stack can still be followed to, by lookups in the store alone -----

  /** The lookup of a remaining key finds what is in the slot, and everything below can be walked:
      no object there is empty, and each is a node of a compressed tree. */
  ghost predicate Found<V>(store: Store<V>, r: Ref, e: (string, Item<V>)) {
    && r in store
    && IndexOf(store[r], e.0) < |store[r]| && store[r][IndexOf(store[r], e.0)].1 == Cell(e.1)
    && (e.0 == "" <==> e.1.Val?)
    && (e.1.Sub? ==> Compressed(e.1.t) && e.1.t.slots != [] && Stored(store, e.1.t))
  }

  /** The keys of frame `i` that are still to be looked up: in every frame but the top one the last is being worked on. */
  ghost function Pending(path: seq<Frame>, i: nat): seq<string>
    requires i < |path| && path[i].keys != []
  {
    if i == |path| - 1 then path[i].keys else path[i].keys[..|path[i].keys| - 1]
  }

  /** Every remaining lookup succeeds, and finds what is in `todo`. */
  ghost predicate Walks<V>(store: Store<V>, path: seq<Frame>, todo: seq<Todo<V>>) {
    && |path| == |todo|
    && forall i :: 0 <= i < |path| ==>
         && path[i].keys != [] && Pending(path, i) == Labels(todo[i].slots)
         && AllFound(store, path[i].ref, todo[i].slots)
  }

  ghost predicate AllFound<V>(store: Store<V>, r: Ref, slots: seq<(string, Item<V>)>) {
    forall j :: 0 <= j < |slots| ==> Found(store, r, slots[j])
  }

  ghost predicate Survives<V(!new)>(store: Store<V>, path: seq<Frame>) {
    exists todo :: Walks<V>(store, path, todo)
  }

  /** Such a walk is never stuck: below every slot there are slots to go on with, and all are found. */
  lemma NeverStuck<V>(store: Store<V>, r: Ref, e: (string, Item<V>))
    requires Found(store, r, e) && e.1.Sub?
    ensures e.1.t.ref in store && store[e.1.t.ref] == Flat(e.1.t.slots) && e.1.t.slots != []
    ensures AllFound(store, e.1.t.ref, e.1.t.slots)
  {
    var c := e.1.t;
    assert At(c, "") == Some(c);
    forall j | 0 <= j < |c.slots| ensures Found(store, c.ref, c.slots[j]) {
      KeyAt(c.slots, j);
      FlatKeys(c.slots, c.slots[j].0);
      if c.slots[j].1.Sub? {
        AtLabel(c, j);
        StoredBelow(store, c, c.slots[j].0, c.slots[j].1.t);
      }
    }
  }

  lemma StoredBelow<V>(store: Store<V>, t: Tree<V>, w: string, c: Tree<V>)
    requires Compressed(t) && Stored(store, t) && At(t, w) == Some(c)
    ensures Stored(store, c)
  {
    hide Compressed, At, Flat;
    forall x {:trigger At(c, x)} | At(c, x).Some?
      ensures At(c, x).value.ref in store && store[At(c, x).value.ref] == Flat(At(c, x).value.slots)
    {
      AtConcat(t, w, x);
    }
  }

  // ----- one slot -----

  /** What is left of the subtree that leads to the key keeps its place: as a node if the frame is that of a node
      of the tree, and at least as an object if the frame's own node was bypassed. */
  ghost predicate Stays<V>(t: Tree<V>, r: Ref, p: string, e: (string, Item<V>), k: string)
    requires !Clear(p, e, k)
  {
    && e.1.Sub?
    && var c := Delete(e.1.t, k[|p + e.0|..]);
       if At(t, p).Some? && At(t, p).value.ref == r then Dense(c) else c.slots != []
  }

  /** The slot after the deletion. */
  ghost function Less<V>(p: string, e: (string, Item<V>), k: string): (string, Item<V>) {
    if e.1.Sub? && p + e.0 <= k then (e.0, Sub(Delete(e.1.t, k[|p + e.0|..]))) else e
  }

  /** Every node on the way to the key has been tidied, on its own or not. */
  lemma TidiedBelow<V>(store: Store<V>, store': Store<V>, t: Tree<V>, k: string, u: string, c: Tree<V>)
    requires Compressed(t) && Rep(store, t) && Deleted(store, store', t, k)
    requires At(t, u) == Some(c) && u <= k
    ensures Stored(store', Delete(c, k[|u|..]))
  {
    hide *;
    var d := Delete(c, k[|u|..]);
    forall x {:trigger At(d, x)} | At(d, x).Some?
      ensures At(d, x).value.ref in store' && store'[At(d, x).value.ref] == Flat(At(d, x).value.slots)
    {
      TidiedNode(store, store', t, k, u, c, x);
    }
    AllStored(store', d);
  }

  lemma AllStored<V>(store: Store<V>, t: Tree<V>)
    requires forall w {:trigger At(t, w)} :: At(t, w).Some? ==>
      At(t, w).value.ref in store && store[At(t, w).value.ref] == Flat(At(t, w).value.slots)
    ensures Stored(store, t)
  {
  }

  lemma TidiedNode<V>(store: Store<V>, store': Store<V>, t: Tree<V>, k: string, u: string, c: Tree<V>, x: string)
    requires Compressed(t) && Rep(store, t) && Deleted(store, store', t, k)
    requires At(t, u) == Some(c) && u <= k && At(Delete(c, k[|u|..]), x).Some?
    ensures var n := At(Delete(c, k[|u|..]), x).value; n.ref in store' && store'[n.ref] == Flat(n.slots)
  {
    hide *;
    var rest := k[|u|..];
    AtConcat(t, u, "");
    assert u + "" == u;
    DeleteAt(c, rest, x);
    AtConcat(t, u, x);
    Onward(u, x, k);
    AfterTidying(store, store', t, k, u + x);
    if x <= rest { DeleteRef(At(c, x).value, rest[|x|..]); }
  }

  /** The object of an old node. */
  lemma AfterTidying<V>(store: Store<V>, store': Store<V>, t: Tree<V>, k: string, w: string)
    requires Rep(store, t) && Deleted(store, store', t, k) && At(t, w).Some?
    ensures var n := At(t, w).value;
      n.ref in store' && store'[n.ref] == Flat(if w <= k then Delete(n, k[|w|..]).slots else n.slots)
  {
    hide At, Flat, Delete;
    if !(w <= k) { OffTheWay(store, t, k, w); }
  }

  lemma Onward(u: string, x: string, k: string)
    requires u <= k
    ensures u + x <= k <==> x <= k[|u|..]
    ensures u + x <= k ==> k[|u|..][|x|..] == k[|u + x|..]
  {
    assert k == u + k[|u|..];
    if u + x <= k { assert x == (u + x)[|u|..] == k[|u|..|u + x|]; }
  }

  lemma OffTheWay<V>(store: Store<V>, t: Tree<V>, k: string, w: string)
    requires Rep(store, t) && At(t, w).Some? && !(w <= k)
    ensures forall u {:trigger At(t, u)} :: u <= k && At(t, u).Some? ==> At(t, u).value.ref != At(t, w).value.ref
  {
    hide At, Flat;
  }

  lemma FoundOf<V>(store: Store<V>, t: Tree<V>, r: Ref, p: string, e: (string, Item<V>))
    requires Compressed(t) && Stored(store, t) && SlotOk(store, t, r, p, e)
    ensures Found(store, r, e)
  {
    hide At, Stored, IndexOf, LeafOf, Compressed;
    if e.1.Sub? {
      GoodSlots(e.1.t);
      StoredBelow(store, t, p + e.0, e.1.t);
    }
  }

  /** A remaining lookup succeeds after the deletion if and only if the slot does not lead to the key,
      or what it leads to stays. */
  lemma SlotSurvives<V>(store: Store<V>, store': Store<V>, t: Tree<V>, k: string, r: Ref, p: string, e: (string, Item<V>))
    requires Compressed(t) && Rep(store, t) && Deleted(store, store', t, k) && SlotOk(store, t, r, p, e)
    ensures Clear(p, e, k) || Stays(t, r, p, e, k) ==> Found(store', r, Less(p, e, k))
    ensures forall x :: Found(store', r, (e.0, x)) ==> Clear(p, e, k) || Stays(t, r, p, e, k)
  {
    hide *;
    KindOf(store, t, r, p, e, k);
    if Clear(p, e, k) {
      SlotAfterDelete(store, store', t, k, r, p, e);
      DeleteCompressed(t, k);
      DeleteRep(store, store', t, k);
      RepStored(store', Delete(t, k));
      FoundOf(store', Delete(t, k), r, p, e);
      ClearSame(p, e, k);
    } else if e.1.Sub? {
      EdgeLess(store, store', t, k, r, p, e.0, e.1.t);
      forall x | Found(store', r, (e.0, x)) ensures Stays(t, r, p, e, k) {
        EdgeStays(store, store', t, k, r, p, e.0, e.1.t, x);
      }
    } else {
      ValueGone(store, store', t, k, r, p, e);
    }
  }

  lemma KindOf<V>(store: Store<V>, t: Tree<V>, r: Ref, p: string, e: (string, Item<V>), k: string)
    requires SlotOk(store, t, r, p, e)
    ensures e == if e.1.Sub? then (e.0, Sub(e.1.t)) else ("", Val(e.1.v))
    ensures Clear(p, e, k) <==> if e.1.Sub? then !(p + e.0 <= k) else k != p
  {
    hide At, IndexOf, Good, LeafOf;
  }

  lemma RepStored<V>(store: Store<V>, t: Tree<V>)
    requires Rep(store, t)
    ensures Stored(store, t)
  {
  }

  lemma ClearSame<V>(p: string, e: (string, Item<V>), k: string)
    requires Clear(p, e, k)
    ensures Less(p, e, k) == e
  {
  }

  lemma ValueGone<V>(store: Store<V>, store': Store<V>, t: Tree<V>, k: string, r: Ref, p: string, e: (string, Item<V>))
    requires Compressed(t) && Rep(store, t) && Deleted(store, store', t, k) && SlotOk(store, t, r, p, e)
    requires e.1.Val? && !Clear(p, e, k)
    ensures !Stays(t, r, p, e, k) && forall x :: !Found(store', r, (e.0, x))
  {
    hide Compressed, Flat, Good, IndexOf, Delete, LeafOf;
    var n := At(t, k).value;
    AtConcat(t, k, "");
    assert k[|k|..] == "" && store'[r] == Flat(Delete(n, "").slots);
    NoLeafLeft(n);
    FlatKeys(Delete(n, "").slots, "");
  }

  lemma NoLeafLeft<V>(n: Tree<V>)
    requires Compressed(n)
    ensures IndexOf(Delete(n, "").slots, "") == |Delete(n, "").slots|
  {
    DeleteCompressed(n, "");
    var i := IndexOf(n.slots, "");
    var d := Delete(n, "").slots;
    if i < |n.slots| {
      forall j | 0 <= j < |d| ensures d[j].0 != "" {
        assert d[j] == n.slots[if j < i then j else j + 1];
      }
    }
  }

  /** The frame's object is that of the tree's node at the frame's path, or of no node that the key passes. */
  lemma FrameOf<V>(store: Store<V>, store': Store<V>, t: Tree<V>, k: string, r: Ref, p: string, x: string, c: Tree<V>)
    requires Compressed(t) && Rep(store, t) && Deleted(store, store', t, k) && SlotOk(store, t, r, p, (x, Sub(c))) && p + x <= k
    ensures r in store'
    ensures if At(t, p).Some? && At(t, p).value.ref == r then
        var n := At(t, p).value;
        && Compressed(n) && IndexOf(n.slots, x) < |n.slots| && n.slots[IndexOf(n.slots, x)].1 == Sub(c)
        && store'[r] == Flat(Delete(n, k[|p|..]).slots)
      else store'[r] == store[r]
  {
    hide At, Delete, Compressed, Rep, Flat, Dense, IndexOf;
    if exists w {:trigger At(t, w)} :: w <= k && At(t, w).Some? && At(t, w).value.ref == r {
      var w {:trigger At(t, w)} :| w <= k && At(t, w).Some? && At(t, w).value.ref == r;
      EdgeOnTheWay(store, t, w, r, p, x, c);
    } else {
      assert p <= k by { assert p + x <= k; assert (p + x)[..|p|] == p; }
    }
  }

  /** An edge on the way is kept, with its label, exactly if its end stays dense. */
  lemma EdgeRefit<V>(n: Tree<V>, x: string, c: Tree<V>, k: string)
    requires Compressed(n) && x != "" && x <= k
    requires IndexOf(n.slots, x) < |n.slots| && n.slots[IndexOf(n.slots, x)].1 == Sub(c)
    ensures var rec, c' := Flat(Delete(n, k).slots), Delete(c, k[|x|..]);
      && (IndexOf(rec, x) < |rec| <==> Dense(c'))
      && (Dense(c') ==> rec[IndexOf(rec, x)].1 == Link(c.ref))
  {
    hide Compressed, Delete, Flat, Refit;
    CompressedEdges(n);
    var i := IndexOf(n.slots, x);
    EdgeAt(n.slots, i, k);
    DeleteEdge(n, k, i);
    DeleteRef(c, k[|x|..]);
    RefitLabel(n.slots, i, Delete(c, k[|x|..]));
    FlatKeys(Refit(n.slots, i, Delete(c, k[|x|..])), x);
  }

  lemma RefitLabel<V>(m: seq<(string, Item<V>)>, i: nat, c: Tree<V>)
    requires Siblings(m) && i < |m| && m[i].0 != ""
    ensures var d, x := Refit(m, i, c), m[i].0;
      && (IndexOf(d, x) < |d| <==> Dense(c))
      && (Dense(c) ==> d[IndexOf(d, x)] == (x, Sub(c)))
  {
    var d, x := Refit(m, i, c), m[i].0;
    forall j | 0 <= j < |m| && j != i ensures m[j].0 != x {
      assert m[j].0 == "" || m[j].0[0] != x[0];
    }
    if Dense(c) {
      assert d[i] == (x, Sub(c)) && forall j :: 0 <= j < |m| && j != i ==> d[j] == m[j];
    } else {
      forall j | 0 <= j < |d| ensures d[j].0 != x {
        if j < |m| - 1 {
          assert d[j] == m[if j < i then j else j + 1];
        } else {
          assert d[j].0 == x + c.slots[0].0;
        }
      }
    }
  }

  lemma EdgeLess<V>(store: Store<V>, store': Store<V>, t: Tree<V>, k: string, r: Ref, p: string, x: string, c: Tree<V>)
    requires Compressed(t) && Rep(store, t) && Deleted(store, store', t, k) && SlotOk(store, t, r, p, (x, Sub(c))) && p + x <= k
    ensures Stays(t, r, p, (x, Sub(c)), k) ==> Found(store', r, Less(p, (x, Sub(c)), k))
  {
    hide At, Delete, Compressed, Rep, Flat, IndexOf, Stored, Deleted;
    if Stays(t, r, p, (x, Sub(c)), k) {
      FrameOf(store, store', t, k, r, p, x, c);
      TidiedBelow(store, store', t, k, p + x, c);
      GoodSlots(c);
      DeleteCompressed(c, k[|p + x|..]);
      DeleteRef(c, k[|p + x|..]);
      if At(t, p).Some? && At(t, p).value.ref == r {
        Halves(p, x, k);
        EdgeRefit(At(t, p).value, x, c, k[|p|..]);
      }
    }
  }

  lemma Halves(p: string, x: string, k: string)
    requires p + x <= k
    ensures x <= k[|p|..] && k[|p|..][|x|..] == k[|p + x|..]
  {
    assert p <= k by { assert (p + x)[..|p|] == p; }
    Onward(p, x, k);
  }

  lemma EdgeStays<V>(store: Store<V>, store': Store<V>, t: Tree<V>, k: string, r: Ref, p: string, x: string, c: Tree<V>, y: Item<V>)
    requires Compressed(t) && Rep(store, t) && Deleted(store, store', t, k) && SlotOk(store, t, r, p, (x, Sub(c))) && p + x <= k
    requires Found(store', r, (x, y))
    ensures Stays(t, r, p, (x, Sub(c)), k)
  {
    hide Delete, Compressed, Rep, Flat, IndexOf, Deleted;
    FrameOf(store, store', t, k, r, p, x, c);
    Halves(p, x, k);
    if At(t, p).Some? && At(t, p).value.ref == r {
      EdgeRefit(At(t, p).value, x, c, k[|p|..]);
    } else {
      TidiedBelow(store, store', t, k, p + x, c);
      DeleteRef(c, k[|p + x|..]);
      assert At(y.t, "") == Some(y.t) && At(Delete(c, k[|p + x|..]), "") == Some(Delete(c, k[|p + x|..]));
      assert |Flat(y.t.slots)| == |y.t.slots|;
    }
  }

  // ----- the whole stack -----

  ghost function LessSlots<V>(p: string, slots: seq<(string, Item<V>)>, k: string): (r: seq<(string, Item<V>)>)
    ensures |r| == |slots| && forall j :: 0 <= j < |slots| ==> r[j] == Less(p, slots[j], k)
  {
    if slots == [] then [] else [Less(p, slots[0], k)] + LessSlots(p, slots[1..], k)
  }

  /** What the stack leads to when the key is deleted. */
  ghost function Without<V>(todo: seq<Todo<V>>, k: string): (r: seq<Todo<V>>)
    ensures |r| == |todo| && forall i :: 0 <= i < |todo| ==> r[i] == Todo(todo[i].prefix, LessSlots(todo[i].prefix, todo[i].slots, k))
  {
    if todo == [] then [] else [Todo(todo[0].prefix, LessSlots(todo[0].prefix, todo[0].slots, k))] + Without(todo[1..], k)
  }

  ghost predicate StaysAt<V>(t: Tree<V>, r: Ref, p: string, e: (string, Item<V>), k: string) {
    !Clear(p, e, k) ==> Stays(t, r, p, e, k)
  }

  /** Whatever leads to the key keeps its place. */
  ghost predicate KeepsPlace<V>(t: Tree<V>, path: seq<Frame>, todo: seq<Todo<V>>, k: string) {
    |path| == |todo| && forall i, j :: 0 <= i < |path| && 0 <= j < |todo[i].slots| ==>
      StaysAt(t, path[i].ref, todo[i].prefix, todo[i].slots[j], k)
  }

  ghost predicate Shows<V>(path: seq<Frame>, todo: seq<Todo<V>>) {
    |path| == |todo| && forall i :: 0 <= i < |path| ==> path[i].keys != [] && Pending(path, i) == Labels(todo[i].slots)
  }

  lemma ReadyShows<V>(store: Store<V>, t: Tree<V>, p: string, path: seq<Frame>, todo: seq<Todo<V>>)
    requires Ready(store, t, p, path, todo)
    ensures Shows(path, todo) && Frames(store, t, path, todo)
  {
    hide TodoOk, Labels;
    FramesOf(store, t, p, path, todo);
    if path != [] {
      var l := |path| - 1;
      forall i | 0 <= i < l
        ensures path[i].keys != [] && path[i].keys[..|path[i].keys| - 1] == Labels(todo[i].slots)
      {
        assert path[..l][i] == path[i] && todo[..l][i] == todo[i];
      }
      assert |Labels(todo[l].slots)| == |todo[l].slots|;
    }
  }

  lemma LessLabels<V>(p: string, slots: seq<(string, Item<V>)>, k: string)
    ensures Labels(LessSlots(p, slots, k)) == Labels(slots)
  {
    hide LessSlots, Labels;
    assert forall j :: 0 <= j < |slots| ==> LessSlots(p, slots, k)[j].0 == slots[j].0;
  }

  /** After the deletion of a key that is still owed, all remaining lookups of the iterator succeed if and only if
      whatever leads to the key keeps its place. What they find then is everything else that was owed, as often as before. */
  lemma SurvivesIff<V(!new)>(store: Store<V>, store': Store<V>, t: Tree<V>, k: string, p: string, path: seq<Frame>, todo: seq<Todo<V>>)
    requires Compressed(t) && Rep(store, t) && Lookup(t, k).Some? && Deleted(store, store', t, k)
    requires Ready(store, t, p, path, todo)
    ensures Survives<V>(store', path) <==> KeepsPlace(t, path, todo, k)
    ensures KeepsPlace(t, path, todo, k) ==> Walks(store', path, Without(todo, k))
    ensures KeepsPlace(t, path, todo, k) ==> forall j :: Occ(Rest(Without(todo, k)), j) == if j == k then 0 else Occ(Rest(todo), j)
  {
    hide *;
    ReadyShows(store, t, p, path, todo);
    if KeepsPlace(t, path, todo, k) {
      WalksOn(store, store', t, k, path, todo);
      WalksSurvives(store', path, Without(todo, k));
      forall j ensures Occ(Rest(Without(todo, k)), j) == if j == k then 0 else Occ(Rest(todo), j) {
        RestLess(store, t, path, todo, k, j);
      }
    }
    forall todo' | Walks<V>(store', path, todo') ensures KeepsPlace(t, path, todo, k) {
      PlaceKept(store, store', t, k, path, todo, todo');
    }
    NoneWalks<V>(store', path);
  }

  lemma WalksSurvives<V(!new)>(store: Store<V>, path: seq<Frame>, todo: seq<Todo<V>>)
    requires Walks(store, path, todo)
    ensures Survives<V>(store, path)
  {
  }

  lemma NoneWalks<V(!new)>(store: Store<V>, path: seq<Frame>)
    ensures Survives<V>(store, path) <==> exists todo :: Walks<V>(store, path, todo)
  {
  }

  lemma WalksOn<V>(store: Store<V>, store': Store<V>, t: Tree<V>, k: string, path: seq<Frame>, todo: seq<Todo<V>>)
    requires Compressed(t) && Rep(store, t) && Deleted(store, store', t, k)
    requires Shows(path, todo) && Frames(store, t, path, todo) && KeepsPlace(t, path, todo, k)
    ensures Walks(store', path, Without(todo, k))
  {
    hide Compressed, Rep, Deleted, SlotOk, Found, Stays, Clear, Labels, Less, LessSlots, Without;
    var less := Without(todo, k);
    forall i | 0 <= i < |path|
      ensures Pending(path, i) == Labels(less[i].slots) && AllFound(store', path[i].ref, less[i].slots)
    {
      LessLabels(todo[i].prefix, todo[i].slots, k);
      forall j | 0 <= j < |less[i].slots| ensures Found(store', path[i].ref, less[i].slots[j]) {
        var e := todo[i].slots[j];
        assert SlotOk(store, t, path[i].ref, todo[i].prefix, e) && StaysAt(t, path[i].ref, todo[i].prefix, e, k);
        SlotSurvives(store, store', t, k, path[i].ref, todo[i].prefix, e);
      }
    }
  }

  lemma PlaceKept<V>(store: Store<V>, store': Store<V>, t: Tree<V>, k: string, path: seq<Frame>, todo: seq<Todo<V>>, todo': seq<Todo<V>>)
    requires Compressed(t) && Rep(store, t) && Deleted(store, store', t, k)
    requires Shows(path, todo) && Frames(store, t, path, todo) && Walks(store', path, todo')
    ensures KeepsPlace(t, path, todo, k)
  {
    hide Compressed, Rep, Deleted, SlotOk, Found, Stays, Clear, Labels;
    forall i, j | 0 <= i < |path| && 0 <= j < |todo[i].slots|
      ensures StaysAt(t, path[i].ref, todo[i].prefix, todo[i].slots[j], k)
    {
      var e := todo[i].slots[j];
      assert SlotOk(store, t, path[i].ref, todo[i].prefix, e);
      SlotSurvives(store, store', t, k, path[i].ref, todo[i].prefix, e);
      assert Labels(todo[i].slots) == Labels(todo'[i].slots);
      var e' := todo'[i].slots[j];
      assert Labels(todo[i].slots)[j] == Labels(todo'[i].slots)[j];
      assert e' == (e.0, e'.1) && Found(store', path[i].ref, e');
    }
  }

  // ----- what is found then -----

  lemma YieldLess<V>(store: Store<V>, t: Tree<V>, r: Ref, p: string, e: (string, Item<V>), k: string, j: string)
    requires Compressed(t) && SlotOk(store, t, r, p, e) && Lookup(t, k).Some?
    requires e.1.Val? ==> Clear(p, e, k)
    ensures Occ(Yield(p, Less(p, e, k)), j) == if j == k then 0 else Occ(Yield(p, e), j)
  {
    hide Compressed, SlotOk, Lookup, Occ, Entries, Delete, Good;
    YieldOcc(store, t, r, p, e, k);
    if e.1.Sub? && p + e.0 <= k {
      var w, c := p + e.0, e.1.t;
      SlotGood(store, t, r, p, e);
      GoodCompressed(c);
      var rest := k[|w|..];
      DeleteCompressed(c, rest);
      OccBelow(w, c, j);
      OccBelow(w, Delete(c, rest), j);
      if w <= j {
        DeleteLookup(c, rest, j[|w|..]);
        assert j == w + j[|w|..] && k == w + rest;
      }
    }
  }

  lemma SlotGood<V>(store: Store<V>, t: Tree<V>, r: Ref, p: string, e: (string, Item<V>))
    requires SlotOk(store, t, r, p, e) && e.1.Sub?
    ensures Good(e.1.t)
  {
  }

  lemma NoValue<V>(t: Tree<V>, r: Ref, p: string, e: (string, Item<V>), k: string)
    requires StaysAt(t, r, p, e, k)
    ensures e.1.Val? ==> Clear(p, e, k)
  {
  }

  lemma {:induction false} EntriesLess<V>(store: Store<V>, t: Tree<V>, r: Ref, d: Todo<V>, k: string, j: string)
    requires Compressed(t) && Lookup(t, k).Some? && TodoOk(store, t, r, d)
    requires forall i :: 0 <= i < |d.slots| ==> StaysAt(t, r, d.prefix, d.slots[i], k)
    ensures Occ(Entries(d.prefix, LessSlots(d.prefix, d.slots, k)), j) == if j == k then 0 else Occ(Entries(d.prefix, d.slots), j)
    decreases |d.slots|
  {
    hide Compressed, SlotOk, Lookup, StaysAt, Less, LessSlots, Occ, Yield;
    var p, less := d.prefix, LessSlots(d.prefix, d.slots, k);
    if d.slots == [] {
      NoOcc<V>(j);
    } else {
      var l := |d.slots| - 1;
      EntriesLess(store, t, r, d.(slots := d.slots[..l]), k, j);
      assert less[..l] == LessSlots(p, d.slots[..l], k);
      assert SlotOk(store, t, r, p, d.slots[l]);
      NoValue(t, r, p, d.slots[l], k);
      YieldLess(store, t, r, p, d.slots[l], k, j);
      OccConcat(Yield(p, d.slots[l]), Entries(p, d.slots[..l]), j);
      OccConcat(Yield(p, less[l]), Entries(p, less[..l]), j);
    }
  }

  lemma NoOcc<V>(j: string)
    ensures Occ<V>([], j) == 0
  {
  }

  lemma {:induction false} RestLess<V>(store: Store<V>, t: Tree<V>, path: seq<Frame>, todo: seq<Todo<V>>, k: string, j: string)
    requires Compressed(t) && Lookup(t, k).Some? && Frames(store, t, path, todo) && KeepsPlace(t, path, todo, k)
    ensures Occ(Rest(Without(todo, k)), j) == if j == k then 0 else Occ(Rest(todo), j)
    decreases |todo|
  {
    hide Compressed, TodoOk, Lookup, StaysAt, LessSlots, Without, Occ, Entries;
    if todo == [] {
      NoOcc<V>(j);
    } else {
      var l, less := |todo| - 1, Without(todo, k);
      RestLess(store, t, path[..l], todo[..l], k, j);
      assert less[..l] == Without(todo[..l], k);
      EntriesLess(store, t, path[l].ref, todo[l], k, j);
      OccConcat(Entries(todo[l].prefix, todo[l].slots), Rest(todo[..l]), j);
      OccConcat(Entries(less[l].prefix, less[l].slots), Rest(less[..l]), j);
    }
  }

  // ----- a run that fails -----

  /** A compressed tree that is not empty has a key. */
  lemma {:induction false} SomeKey<V>(t: Tree<V>) returns (x: string)
    requires Compressed(t) && t.slots != []
    ensures Lookup(t, x).Some?
    decreases t
  {
    var (n, c) := t.slots[0];
    if n == "" {
      x := "";
      KeyAt(t.slots, 0);
    } else {
      var y := SomeKey(c.t);
      x := n + y;
      AtEdge(t, 0, x);
      assert x[|n|..] == y;
    }
  }

  lemma {:induction false} LeadingSlot<V>(p: string, slots: seq<(string, Item<V>)>, k: string) returns (j: nat)
    requires LeadSlots(p, slots, k) > 0
    ensures j < |slots| && !Clear(p, slots[j], k)
  {
    var l := |slots| - 1;
    if Clear(p, slots[l], k) { j := LeadingSlot(p, slots[..l], k); } else { j := l; }
  }

  lemma {:induction false} Leading<V>(todo: seq<Todo<V>>, k: string) returns (i: nat, j: nat)
    requires Leads(todo, k) > 0
    ensures i < |todo| && j < |todo[i].slots| && !Clear(todo[i].prefix, todo[i].slots[j], k)
  {
    var l := |todo| - 1;
    if LeadSlots(todo[l].prefix, todo[l].slots, k) > 0 {
      i := l;
      j := LeadingSlot(todo[l].prefix, todo[l].slots, k);
    } else {
      i, j := Leading(todo[..l], k);
    }
  }

  /** What keeps its place still leads to some key. */
  lemma StillSome<V>(store: Store<V>, t: Tree<V>, r: Ref, p: string, e: (string, Item<V>), k: string) returns (y: (string, V))
    requires Compressed(t) && SlotOk(store, t, r, p, e) && !Clear(p, e, k) && Stays(t, r, p, e, k)
    ensures y in Yield(p, Less(p, e, k))
  {
    hide Compressed, SlotOk, Entries, Delete, Good, At;
    SlotGood(store, t, r, p, e);
    GoodCompressed(e.1.t);
    var c := Delete(e.1.t, k[|p + e.0|..]);
    DeleteCompressed(e.1.t, k[|p + e.0|..]);
    var x := SomeKey(c);
    var i := EntriesComplete(p + e.0, c, x);
    y := Entries(p + e.0, c.slots)[i];
  }

  /** The last key owed must not be deleted. */
  lemma LastOwed<V(!new)>(store: Store<V>, store': Store<V>, t: Tree<V>, k: string, p: string, path: seq<Frame>, todo: seq<Todo<V>>)
    requires Compressed(t) && Rep(store, t) && Lookup(t, k).Some? && Deleted(store, store', t, k)
    requires Ready(store, t, p, path, todo) && forall j :: Owes(todo, j) <==> j == k
    ensures !Survives<V>(store', path)
  {
    hide *;
    SurvivesIff(store, store', t, k, p, path, todo);
    if KeepsPlace(t, path, todo, k) {
      ReadyShows(store, t, p, path, todo);
      SameLength(store, t, path, todo);
      OwedOcc(todo, k);
      RestOcc(store, t, path, todo, k);
      var i, j := Leading(todo, k);
      SlotsOf(store, t, path, todo, k, i, j);
      var e := todo[i].slots[j];
      var y := StillSome(store, t, path[i].ref, todo[i].prefix, e, k);
      YieldIn(todo[i].prefix, LessSlots(todo[i].prefix, todo[i].slots, k), j, y);
      RestIn(Without(todo, k), i, y);
      var m :| 0 <= m < |Rest(Without(todo, k))| && Rest(Without(todo, k))[m] == y;
      OccIn(Rest(Without(todo, k)), y.0);
      OwedOcc(todo, y.0);
      assert false;
    }
  }

  lemma SameLength<V>(store: Store<V>, t: Tree<V>, path: seq<Frame>, todo: seq<Todo<V>>)
    requires Frames(store, t, path, todo)
    ensures |path| == |todo|
  {
  }

  lemma OwedOcc<V>(todo: seq<Todo<V>>, k: string)
    ensures Owes(todo, k) <==> Occ(Rest(todo), k) > 0
  {
    hide Occ, Rest;
    OccIn(Rest(todo), k);
  }

  lemma SlotsOf<V>(store: Store<V>, t: Tree<V>, path: seq<Frame>, todo: seq<Todo<V>>, k: string, i: nat, j: nat)
    requires Frames(store, t, path, todo) && KeepsPlace(t, path, todo, k)
    requires i < |todo| && j < |todo[i].slots| && !Clear(todo[i].prefix, todo[i].slots[j], k)
    ensures SlotOk(store, t, path[i].ref, todo[i].prefix, todo[i].slots[j])
    ensures Stays(t, path[i].ref, todo[i].prefix, todo[i].slots[j], k)
  {
    hide SlotOk, Stays, Clear;
    assert StaysAt(t, path[i].ref, todo[i].prefix, todo[i].slots[j], k);
    assert TodoOk(store, t, path[i].ref, todo[i]);
  }

  /** Two keys; one is yielded, and the other is deleted although it is still owed: the iterator cannot go on. */
  method OwedDeleted() returns (m: RadixMap<nat>, it: RadixIterator<nat>, k: string)
    ensures fresh(m) && fresh(it) && it.base == m && m.Valid() && k !in m.Content()
    ensures !Survives<nat>(m.store, it.path)
  {
    hide *;
    m := new RadixMap();
    m.Set("a", 0);
    m.Set("b", 1);
    it := AtPrefix(m, "");
    ghost var all := it.Future();
    ghost var c := m.Content();
    assert c.Keys == {"a", "b"};
    TwoKeys(c, all, "a", "b");
    var e := it.Next();
    k := if e.value.0 == "a" then "b" else "a";
    OneLeft(it, all, k);
    ghost var store, tree := m.store, m.tree;
    IsThere(m, it, k);
    m.Delete(k);
    LastOwed(store, m.store, tree, k, it.prefix, it.path, it.todo);
  }

  lemma KeyListed(m: map<string, nat>, es: seq<(string, nat)>, k: string) returns (i: nat)
    requires ListsPrefix(m, "", es) && k in m
    ensures i < |es| && es[i].0 == k
  {
    assert k[..0] == "";
    i :| 0 <= i < |es| && es[i].0 == k;
  }

  ghost function KeySet(es: seq<(string, nat)>): set<string> {
    if es == [] then {} else KeySet(es[..|es| - 1]) + {es[|es| - 1].0}
  }

  lemma {:induction false} KeySetIs(es: seq<(string, nat)>)
    requires DistinctKeys(es)
    ensures |KeySet(es)| == |es| && forall k :: k in KeySet(es) <==> exists i :: 0 <= i < |es| && es[i].0 == k
  {
    if es != [] {
      var less := es[..|es| - 1];
      assert forall i :: 0 <= i < |less| ==> less[i] == es[i];
      KeySetIs(less);
      assert es[|es| - 1].0 !in KeySet(less);
    }
  }

  lemma TwoKeys(m: map<string, nat>, es: seq<(string, nat)>, x: string, y: string)
    requires ListsPrefix(m, "", es) && m.Keys == {x, y} && x != y
    ensures |es| == 2 && es[0].0 != es[1].0
    ensures es[0].0 in {x, y} && es[1].0 in {x, y}
  {
    hide KeySet;
    var i := KeyListed(m, es, x);
    var j := KeyListed(m, es, y);
    KeySetIs(es);
    assert KeySet(es) == {x, y};
    assert es[0].0 in m && es[1].0 in m;
  }

  lemma OneLeft(it: RadixIterator<nat>, all: seq<(string, nat)>, k: string)
    requires |all| == 2 && it.Future() == all[1..] && k == all[1].0
    ensures forall j :: Owes(it.todo, j) <==> j == k
  {
    assert Rest(it.todo) == [all[1]];
    assert Rest(it.todo)[0].0 == k;
  }

  lemma IsThere(m: RadixMap<nat>, it: RadixIterator<nat>, k: string)
    requires it.base == m && it.Valid() && k in m.Content()
    ensures Compressed(m.tree) && Rep(m.store, m.tree) && Lookup(m.tree, k).Some? && m.Valid()
    ensures Ready(m.store, m.tree, it.prefix, it.path, it.todo)
  {
  }

  // ----- a new key -----

  /** The new key leaves the tree inside this very edge, which is split. */
  ghost predicate Splits<V>(t: Tree<V>, r: Ref, p: string, e: (string, Item<V>), k: string) {
    && e.1.Sub? && At(t, p).Some? && At(t, p).value.ref == r
    && p <= k && p != k && e.0 != "" && k[|p|] == e.0[0] && !(p + e.0 <= k)
  }

  /** An edge keeps its label, unless it is split. */
  lemma EdgeAfterInsert<V>(n: Tree<V>, q: string, v: V, f: Ref, x: string, c: Tree<V>)
    requires Compressed(n) && x != "" && IndexOf(n.slots, x) < |n.slots| && n.slots[IndexOf(n.slots, x)].1 == Sub(c)
    ensures var d := Insert(n, q, v, f).slots;
      if q != "" && q[0] == x[0] && !(x <= q) then IndexOf(d, x) == |d|
      else IndexOf(d, x) < |d| && Cell(d[IndexOf(d, x)].1) == Link(c.ref)
  {
    hide Compressed, Insert;
    CompressedEdges(n);
    InsertGood(n, q, v, f);
    CompressedEdges(Insert(n, q, v, f));
    var e := IndexOf(n.slots, x);
    KeyBranch(n.slots, e);
    if q == "" {
      PutKeeps(n, v, f, e);
    } else if Fresh(n, q) {
      StepFreshIs(n, q, v, f);
      KeyAt(Insert(n, q, v, f).slots, e);
    } else if Descends(n, q) {
      StepDescends(n, q, v, f, q);
      InsertRef(n.slots[BranchOf(n.slots, q[0])].1.t, q[|n.slots[BranchOf(n.slots, q[0])].0|..], v, f);
      KeyAt(Insert(n, q, v, f).slots, e);
    } else {
      StepForks(n, q, v, f, q);
      TradeKeeps(n, q, v, f, e);
    }
  }

  lemma PutKeeps<V>(n: Tree<V>, v: V, f: Ref, e: nat)
    requires Siblings(n.slots) && Siblings(Insert(n, "", v, f).slots) && e < |n.slots| && n.slots[e].0 != ""
    ensures var d := Insert(n, "", v, f).slots; IndexOf(d, n.slots[e].0) < |d| && d[IndexOf(d, n.slots[e].0)] == n.slots[e]
  {
    var d := Insert(n, "", v, f).slots;
    assert d[e] == n.slots[e];
    KeyAt(d, e);
  }

  lemma StepFreshIs<V>(n: Tree<V>, q: string, v: V, f: Ref)
    requires Fresh(n, q)
    ensures Insert(n, q, v, f).slots == n.slots + [(q, Sub(Node(f, [("", Val(v))])))]
  {
  }

  /** Splitting one edge leaves the others, and its own label goes. */
  lemma TradeKeeps<V>(n: Tree<V>, q: string, v: V, f: Ref, e: nat)
    requires Siblings(n.slots) && Forks(n, q) && e < |n.slots| && n.slots[e].0 != ""
    requires var i := BranchOf(n.slots, q[0]);
      var a := Common(n.slots[i].0, q);
      && n.slots[i].1.Sub? && Siblings(Insert(n, q, v, f).slots)
      && Insert(n, q, v, f) == Trade(n, i, q[..a], Fork(f, n.slots[i].0[a..], n.slots[i].1.t, q[a..], v))
    ensures var d, x := Insert(n, q, v, f).slots, n.slots[e].0;
      if BranchOf(n.slots, q[0]) == e then IndexOf(d, x) == |d| else IndexOf(d, x) < |d| && d[IndexOf(d, x)] == n.slots[e]
  {
    hide Fork, Insert;
    var i := BranchOf(n.slots, q[0]);
    var d, x := Insert(n, q, v, f).slots, n.slots[e].0;
    CommonOf(n.slots[i].0, q);
    if e == i {
      forall j | 0 <= j < |d| ensures d[j].0 != x {
        if j < |n.slots| - 1 {
          assert d[j] == n.slots[if j < i then j else j + 1];
          assert d[j].0 == "" || d[j].0[0] != x[0];
        }
      }
    } else {
      var j := if e < i then e else e - 1;
      assert d[j] == n.slots[e];
      KeyAt(d, j);
    }
  }

  lemma EdgeAdded<V>(store: Store<V>, store': Store<V>, t: Tree<V>, k: string, v: V, f: Ref, r: Ref, p: string, x: string, c: Tree<V>)
    requires Compressed(t) && Rep(store, t) && Rep(store', Insert(t, k, v, f)) && OffPath(store, store', t, k)
    requires SlotOk(store, t, r, p, (x, Sub(c)))
    ensures r in store' && x != ""
    ensures var e: (string, Item<V>) := (x, Sub(c));
      if Splits(t, r, p, e, k) then IndexOf(store'[r], x) == |store'[r]|
      else IndexOf(store'[r], x) < |store'[r]| && store'[r][IndexOf(store'[r], x)].1 == Link(c.ref)
  {
    hide Compressed, Insert, Rep, Flat, IndexOf, Dense, OffPath;
    if At(t, p).Some? && At(t, p).value.ref == r {
      EdgeOnTheWay(store, t, p, r, p, x, c);
      NodeAdded(store', t, k, v, f, p);
      var n := At(t, p).value;
      if p <= k {
        if p != k { assert k[|p|..][0] == k[|p|]; }
        Onward(p, x, k);
        EdgeAfterInsert(n, k[|p|..], v, f, x, c);
        FlatKeys(Insert(n, k[|p|..], v, f).slots, x);
      } else {
        FlatKeys(n.slots, x);
      }
    } else {
      NotOnPath(store, store', t, k, r, p, x, c);
    }
  }

  /** The object of an old node. */
  lemma NodeAdded<V>(store': Store<V>, t: Tree<V>, k: string, v: V, f: Ref, w: string)
    requires Compressed(t) && Rep(store', Insert(t, k, v, f)) && At(t, w).Some?
    ensures var n := At(t, w).value;
      n.ref in store' && store'[n.ref] == Flat(if w <= k then Insert(n, k[|w|..], v, f).slots else n.slots)
  {
    hide Compressed, Insert, Flat;
    InsertAt(t, k, v, f, w);
    if w <= k { InsertRef(At(t, w).value, k[|w|..], v, f); }
  }

  lemma NotOnPath<V>(store: Store<V>, store': Store<V>, t: Tree<V>, k: string, r: Ref, p: string, x: string, c: Tree<V>)
    requires Compressed(t) && Rep(store, t) && OffPath(store, store', t, k) && SlotOk(store, t, r, p, (x, Sub(c)))
    requires !(At(t, p).Some? && At(t, p).value.ref == r)
    ensures r in store' && store'[r] == store[r]
  {
    hide At, Compressed, Rep, IndexOf, Good;
    forall w {:trigger At(t, w)} | w <= k && At(t, w).Some? ensures At(t, w).value.ref != r {
      if At(t, w).value.ref == r { EdgeOnTheWay(store, t, w, r, p, x, c); }
    }
  }

  lemma LeafAdded<V>(store: Store<V>, store': Store<V>, t: Tree<V>, k: string, v: V, f: Ref, r: Ref, p: string, u: V)
    requires Compressed(t) && Rep(store', Insert(t, k, v, f)) && Lookup(t, k) == None && SlotOk(store, t, r, p, ("", Val(u)))
    ensures SlotOk(store', Insert(t, k, v, f), r, p, ("", Val(u)))
  {
    hide Compressed, Insert, Flat, Dense;
    var n := At(t, p).value;
    InsertAt(t, k, v, f, p);
    NodeAdded(store', t, k, v, f, p);
    LeafStays(t, k, v, f, p);
    FlatKeys(At(Insert(t, k, v, f), p).value.slots, "");
  }

  ghost predicate Unfound<V>(store: Store<V>, r: Ref, x: string) {
    r in store ==> IndexOf(store[r], x) == |store[r]|
  }

  lemma UnfoundIs<V>(store: Store<V>, r: Ref, e: (string, Item<V>))
    requires Unfound(store, r, e.0)
    ensures !Found(store, r, e)
  {
  }

  /** What becomes of one slot. */
  ghost predicate SlotTold<V>(store': Store<V>, t: Tree<V>, t': Tree<V>, r: Ref, p: string, e: (string, Item<V>), k: string) {
    && (!Splits(t, r, p, e, k) ==> SlotOk(store', t', r, p, RereadSlot(p, e, t')))
    && (Splits(t, r, p, e, k) ==> Unfound(store', r, e.0))
  }

  /** A remaining lookup succeeds after the new key if and only if the edge is not split. */
  lemma SlotAdded<V>(store: Store<V>, store': Store<V>, t: Tree<V>, k: string, v: V, f: Ref, r: Ref, p: string, e: (string, Item<V>))
    requires Compressed(t) && Rep(store, t) && Rep(store', Insert(t, k, v, f)) && OffPath(store, store', t, k)
    requires Lookup(t, k) == None && SlotOk(store, t, r, p, e)
    ensures SlotTold(store', t, Insert(t, k, v, f), r, p, e, k)
  {
    hide Compressed, Rep, Insert, OffPath, Lookup, SlotOk, Splits, Found, RereadSlot, Clear;
    KindOf(store, t, r, p, e, k);
    if e.1.Sub? {
      EdgeAdded(store, store', t, k, v, f, r, p, e.0, e.1.t);
      EdgeReread(store, store', t, k, v, f, r, p, e.0, e.1.t);
    } else {
      LeafAdded(store, store', t, k, v, f, r, p, e.1.v);
      SlotReread(store', Insert(t, k, v, f), r, p, e);
      OnlyEdges(t, r, p, e, k);
    }
  }

  lemma OnlyEdges<V>(t: Tree<V>, r: Ref, p: string, e: (string, Item<V>), k: string)
    ensures Splits(t, r, p, e, k) ==> e.1.Sub?
  {
  }

  lemma EdgeReread<V>(store: Store<V>, store': Store<V>, t: Tree<V>, k: string, v: V, f: Ref, r: Ref, p: string, x: string, c: Tree<V>)
    requires Compressed(t) && SlotOk(store, t, r, p, (x, Sub(c))) && r in store'
    ensures IndexOf(store'[r], x) < |store'[r]| && store'[r][IndexOf(store'[r], x)].1 == Link(c.ref) ==>
      SlotOk(store', Insert(t, k, v, f), r, p, RereadSlot(p, (x, Sub(c)), Insert(t, k, v, f)))
  {
    hide Compressed, Insert, Dense, IndexOf;
    InsertAt(t, k, v, f, p + x);
    if p + x <= k {
      InsertGood(c, k[|p + x|..], v, f);
      InsertRef(c, k[|p + x|..], v, f);
    }
  }

  ghost predicate NoneSplit<V>(t: Tree<V>, path: seq<Frame>, todo: seq<Todo<V>>, k: string) {
    |path| == |todo| && forall i, j :: 0 <= i < |path| && 0 <= j < |todo[i].slots| ==>
      !Splits(t, path[i].ref, todo[i].prefix, todo[i].slots[j], k)
  }

  /** After a new key, all remaining lookups of the iterator succeed if and only if no edge that it still has to follow
      was split. What they find then is everything that was owed, and the new key if a remaining slot leads to it. */
  lemma AddedIff<V(!new)>(store: Store<V>, store': Store<V>, t: Tree<V>, k: string, v: V, f: Ref, p: string, path: seq<Frame>,
                          todo: seq<Todo<V>>)
    requires Compressed(t) && Rep(store, t) && Rep(store', Insert(t, k, v, f)) && OffPath(store, store', t, k)
    requires Lookup(t, k) == None && Ready(store, t, p, path, todo)
    ensures Survives<V>(store', path) <==> NoneSplit(t, path, todo, k)
    ensures var t' := Insert(t, k, v, f);
      NoneSplit(t, path, todo, k) ==>
        && Ready(store', t', p, path, Reread(todo, t'))
        && forall j :: Occ(Rest(Reread(todo, t')), j) == if j == k then Leads(todo, k) else Occ(Rest(todo), j)
  {
    hide *;
    var t' := Insert(t, k, v, f);
    InsertGood(t, k, v, f);
    ReadyShows(store, t, p, path, todo);
    SlotsAdded(store, store', t, k, v, f, path, todo);
    if NoneSplit(t, path, todo, k) {
      AddedReady(store, store', t, k, v, f, p, path, todo);
      RepStored(store', t');
      ReadyWalks(store', t', p, path, Reread(todo, t'));
      WalksSurvives(store', path, Reread(todo, t'));
      forall j ensures Occ(Rest(Reread(todo, t')), j) == if j == k then Leads(todo, k) else Occ(Rest(todo), j) {
        AddedOcc(store, store', t, k, v, f, p, path, todo, j);
      }
    }
    forall todo' | Walks<V>(store', path, todo') ensures NoneSplit(t, path, todo, k) {
      NotSplit(store', t, t', k, path, todo, todo');
    }
    NoneWalks<V>(store', path);
  }

  ghost predicate SlotsTold<V>(store': Store<V>, t: Tree<V>, t': Tree<V>, k: string, path: seq<Frame>, todo: seq<Todo<V>>) {
    |path| == |todo| && forall i, j :: 0 <= i < |path| && 0 <= j < |todo[i].slots| ==>
      SlotTold(store', t, t', path[i].ref, todo[i].prefix, todo[i].slots[j], k)
  }

  lemma SlotsAdded<V>(store: Store<V>, store': Store<V>, t: Tree<V>, k: string, v: V, f: Ref, path: seq<Frame>, todo: seq<Todo<V>>)
    requires Compressed(t) && Rep(store, t) && Rep(store', Insert(t, k, v, f)) && OffPath(store, store', t, k)
    requires Lookup(t, k) == None && Frames(store, t, path, todo)
    ensures SlotsTold(store', t, Insert(t, k, v, f), k, path, todo)
  {
    hide Compressed, Rep, Insert, OffPath, Lookup, SlotOk, Splits, Found, RereadSlot;
    forall i, j | 0 <= i < |path| && 0 <= j < |todo[i].slots|
      ensures SlotTold(store', t, Insert(t, k, v, f), path[i].ref, todo[i].prefix, todo[i].slots[j], k)
    {
      assert SlotOk(store, t, path[i].ref, todo[i].prefix, todo[i].slots[j]);
      SlotAdded(store, store', t, k, v, f, path[i].ref, todo[i].prefix, todo[i].slots[j]);
    }
  }

  lemma AddedReady<V>(store: Store<V>, store': Store<V>, t: Tree<V>, k: string, v: V, f: Ref, p: string,
                      path: seq<Frame>, todo: seq<Todo<V>>)
    requires SlotsTold(store', t, Insert(t, k, v, f), k, path, todo) && NoneSplit(t, path, todo, k) && Ready(store, t, p, path, todo)
    ensures Ready(store', Insert(t, k, v, f), p, path, Reread(todo, Insert(t, k, v, f)))
  {
    hide Ready, Insert, SlotOk, Splits, Found, RereadSlot, Reread;
    forall i, j | 0 <= i < |path| && 0 <= j < |todo[i].slots|
      ensures SlotOk(store', Insert(t, k, v, f), path[i].ref, todo[i].prefix,
        RereadSlot(todo[i].prefix, todo[i].slots[j], Insert(t, k, v, f)))
    {
      assert SlotTold(store', t, Insert(t, k, v, f), path[i].ref, todo[i].prefix, todo[i].slots[j], k);
    }
    ReadyReread(store, store', t, Insert(t, k, v, f), p, path, todo);
  }

  lemma ReadyWalks<V>(store: Store<V>, t: Tree<V>, p: string, path: seq<Frame>, todo: seq<Todo<V>>)
    requires Compressed(t) && Stored(store, t) && Ready(store, t, p, path, todo)
    ensures Walks(store, path, todo)
  {
    hide Compressed, Stored, Ready, SlotOk, Found, Labels;
    ReadyShows(store, t, p, path, todo);
    forall i, j | 0 <= i < |path| && 0 <= j < |todo[i].slots| ensures Found(store, path[i].ref, todo[i].slots[j]) {
      assert SlotOk(store, t, path[i].ref, todo[i].prefix, todo[i].slots[j]);
      FoundOf(store, t, path[i].ref, todo[i].prefix, todo[i].slots[j]);
    }
  }

  lemma AddedOcc<V>(store: Store<V>, store': Store<V>, t: Tree<V>, k: string, v: V, f: Ref, p: string,
                    path: seq<Frame>, todo: seq<Todo<V>>, j: string)
    requires Compressed(t) && Lookup(t, k) == None && Ready(store, t, p, path, todo)
    requires Ready(store', Insert(t, k, v, f), p, path, Reread(todo, Insert(t, k, v, f)))
    ensures Occ(Rest(Reread(todo, Insert(t, k, v, f))), j) == if j == k then Leads(todo, k) else Occ(Rest(todo), j)
  {
    hide *;
    var t' := Insert(t, k, v, f);
    InsertGood(t, k, v, f);
    InsertLookup(t, k, v, f, j);
    FramesOf(store, t, p, path, todo);
    FramesOf(store', t', p, path, Reread(todo, t'));
    RestOcc(store, t, path, todo, j);
    RestOcc(store', t', path, Reread(todo, t'), j);
    LeadsReread(todo, t', j);
  }

  lemma NotSplit<V>(store': Store<V>, t: Tree<V>, t': Tree<V>, k: string, path: seq<Frame>, todo: seq<Todo<V>>, todo': seq<Todo<V>>)
    requires Shows(path, todo) && Walks(store', path, todo') && SlotsTold(store', t, t', k, path, todo)
    ensures NoneSplit(t, path, todo, k)
  {
    hide Found, Splits, Labels, SlotOk, RereadSlot, Unfound;
    forall i, j | 0 <= i < |path| && 0 <= j < |todo[i].slots|
      ensures !Splits(t, path[i].ref, todo[i].prefix, todo[i].slots[j], k)
    {
      assert Labels(todo[i].slots) == Labels(todo'[i].slots);
      assert SlotTold(store', t, t', path[i].ref, todo[i].prefix, todo[i].slots[j], k);
      var e, e' := todo[i].slots[j], todo'[i].slots[j];
      assert Labels(todo[i].slots)[j] == Labels(todo'[i].slots)[j];
      assert e'.0 == e.0 && Found(store', path[i].ref, e');
      if Unfound(store', path[i].ref, e'.0) { UnfoundIs(store', path[i].ref, e'); }
    }
  }

  /** One key, nothing yielded yet; then a second key splits the only edge: the iterator cannot go on. */
  method EdgeSplit() returns (m: RadixMap<nat>, it: RadixIterator<nat>)
    ensures fresh(m) && fresh(it) && it.base == m && m.Valid() && m.Content().Keys == {"ab", "ac"}
    ensures !Survives<nat>(m.store, it.path)
  {
    hide *;
    m := new RadixMap();
    ghost var f, t0 := m.next, m.tree;
    EmptyTree(m);
    m.Set("ab", 0);
    m.AtRoot();
    assert t0 == Node(m.root, []) && m.tree == Insert(t0, "ab", 0, f);
    OneEdge(t0, m.tree, m.root, f);
    EnterNode(m.store, m.tree, "", m.tree);
    it := new RadixIterator(m, m.root, "", m.tree);
    ghost var store, tree, next := m.store, m.tree, m.next;
    NewIterator(m, it);
    m.Set("ac", 1);
    m.AtRoot();
    assert m.Content().Keys == {"ab", "ac"};
    AddedIff(store, m.store, tree, "ac", 1, next, it.prefix, it.path, it.todo);
  }

  lemma EmptyTree(m: RadixMap<nat>)
    requires m.Valid() && m.Content() == map[]
    ensures m.tree == Node(m.root, [])
  {
    if m.tree.slots != [] {
      var x := SomeKey(m.tree);
      MapAt(m.tree, x);
    }
  }

  lemma OneEdge(t0: Tree<nat>, t: Tree<nat>, r: Ref, f: Ref)
    requires t0 == Node(r, []) && t == Insert(t0, "ab", 0, f)
    ensures t == Node(r, [("ab", Sub(Node(f, [("", Val(0))])))])
    ensures Lookup(t, "ac") == None
  {
    NotPrefix();
    assert t.slots == [("ab", Sub(Node(f, [("", Val(0))])))];
    assert EdgeOf(t.slots, "ac") == 1;
  }

  lemma NotPrefix()
    ensures !("ab" <= "ac") && "" + "ab" == "ab"
  {
    assert "ab"[1] != "ac"[1];
  }

  lemma NewIterator(m: RadixMap<nat>, it: RadixIterator<nat>)
    requires m.Valid() && it.base == m && it.Valid() && |m.tree.slots| == 1 && m.tree.slots[0].0 == "ab" && m.tree.slots[0].1.Sub?
    requires it.path == [Frame(m.root, Labels(m.tree.slots))] && it.todo == [Todo("", m.tree.slots)]
    ensures Compressed(m.tree) && Rep(m.store, m.tree) && Ready(m.store, m.tree, it.prefix, it.path, it.todo)
    ensures !NoneSplit(m.tree, it.path, it.todo, "ac")
  {
    NotPrefix();
    assert Splits(m.tree, m.root, "", m.tree.slots[0], "ac");
  }
}

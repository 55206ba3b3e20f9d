/** What others may do while a vacuum pauses: documents are discarded and removed, and searches clean up on their way. */
module SearchPauses {
  import opened JsMaps
  import opened RadixTree
  import opened RadixStore
  import opened RadixEntries
  import opened RadixMaps
  import opened RadixIterators
  import opened RadixPauses
  import opened Postings
  import opened SearchDocs
  import opened SearchState
  import opened SearchIndex
  import opened SearchVacuum
  import opened SearchQuery
  import opened SearchCombine

  datatype Call =
    | Discarding(id: Id)
    | Removing(doc: Doc)
    | Searching(qs: seq<Query>, scope: Scope, op: Option<Operator>)

  /** What a call makes of an index that no vacuum runs on, up to the cleaning done by searches. */
  function AfterCall(o: Options, s: State, call: Call): State {
    match call
    case Discarding(id) => Do(o, s, SearchState.Op.Discard(id))
    case Removing(doc) => Do(o, s, SearchState.Op.Remove(doc))
    case Searching(_, _, _) => s
  }

  function AfterCalls(o: Options, s: State, calls: seq<Call>): State {
    if calls == [] then s else AfterCall(o, AfterCalls(o, s, calls[..|calls| - 1]), calls[|calls| - 1])
  }

  predicate Quiet(calls: seq<Call>) {
    forall i :: 0 <= i < |calls| ==> !calls[i].Searching?
  }

  predicate Discards(calls: seq<Call>) {
    forall i :: 0 <= i < |calls| ==> calls[i].Discarding?
  }

  lemma OneDiscard(calls: seq<Call>, j: nat)
    requires j < |calls|
    ensures Discards(calls) ==> calls[j].Discarding?
  {
  }

  lemma NoCalls(o: Options, s: State)
    ensures AfterCalls(o, s, []) == s
  {
  }

  lemma NextCall(o: Options, s: State, calls: seq<Call>, j: nat)
    requires j < |calls|
    ensures AfterCalls(o, s, calls[..j + 1]) == AfterCall(o, AfterCalls(o, s, calls[..j]), calls[j])
    ensures Quiet(calls[..j + 1]) <==> Quiet(calls[..j]) && !calls[j].Searching?
  {
    hide AfterCall;
    var more := calls[..j + 1];
    assert more[..j] == calls[..j] && more[j] == calls[j];
    assert forall i :: 0 <= i < j ==> calls[..j][i] == more[i];
  }

  lemma {:induction false} MoreCalls(o: Options, s: State, a: seq<Call>, b: seq<Call>)
    ensures AfterCalls(o, s, a + b) == AfterCalls(o, AfterCalls(o, s, a), b)
    decreases |b|
  {
    hide AfterCall;
    if b == [] {
      assert a + b == a;
    } else {
      var l := |b| - 1;
      assert (a + b)[..|a + b| - 1] == a + b[..l];
      MoreCalls(o, s, a, b[..l]);
    }
  }

  // ----- the index under the calls -----

  lemma SameDiscard(o: Options, s: State, now: State, id: Id)
    requires now == s.(content := now.content) && Coherent(now)
    ensures var (s', now') := (Do(o, s, SearchState.Op.Discard(id)), Do(o, now, SearchState.Op.Discard(id)));
      now' == s'.(content := now.content) && s'.content == s.content && s'.ids.Keys <= s.ids.Keys && s'.dirt >= s.dirt
  {
    hide *;
    if id in s.shorts { CountPositive(now, id); }
    DiscardIs(o, s, id);
    DiscardIs(o, now, id);
  }

  lemma GoingDiscard(o: Options, s: State, now: State, seen: set<string>, live0: set<ShortId>, dirt0: nat, whole: bool, id: Id)
    requires Going(s, now, seen, live0, dirt0, whole) && Coherent(now)
    ensures Going(Do(o, s, SearchState.Op.Discard(id)), Do(o, now, SearchState.Op.Discard(id)), seen, live0, dirt0, whole)
  {
    hide Do, Coherent, Tidy, Count;
    SameDiscard(o, s, now, id);
  }

  lemma SameRemove(o: Options, s: State, now: State, doc: Doc)
    requires now == s.(content := now.content) && Coherent(now)
    ensures var (s', now') := (Do(o, s, SearchState.Op.Remove(doc)), Do(o, now, SearchState.Op.Remove(doc)));
      && now' == s'.(content := now'.content) && s'.dirt == s.dirt
      && if doc.id.Some? && doc.id.value in s.shorts then
           var d := s.shorts[doc.id.value];
           && s'.ids == s.ids - {d}
           && s'.content == Apply(s.content, d, Posts(o, doc), false) && now'.content == Apply(now.content, d, Posts(o, doc), false)
         else s' == s && now' == now
  {
    hide *;
    if doc.id.Some? && doc.id.value in s.shorts { CountPositive(now, doc.id.value); }
    RemoveIs(o, s, doc);
    RemoveIs(o, now, doc);
  }

  lemma GoingRemove(o: Options, s: State, now: State, seen: set<string>, live0: set<ShortId>, dirt0: nat, whole: bool, doc: Doc)
    requires Going(s, now, seen, live0, dirt0, whole) && Coherent(now)
    ensures var s' := Do(o, s, SearchState.Op.Remove(doc));
      Going(s', Do(o, now, SearchState.Op.Remove(doc)), seen, live0, dirt0, whole)
  {
    hide Do, Coherent, Tidy, Count, Apply, Posts;
    SameRemove(o, s, now, doc);
    if doc.id.Some? && doc.id.value in s.shorts {
      var d := s.shorts[doc.id.value];
      ApplyCount(s.content, d, Posts(o, doc), false);
      ApplyCount(now.content, d, Posts(o, doc), false);
    }
  }

  lemma GoingSearch(s: State, now: State, now': State, seen: set<string>, live0: set<ShortId>, dirt0: nat, whole: bool)
    requires Going(s, now, seen, live0, dirt0, whole) && Loses(now, now') && now' == now.(content := now'.content)
    ensures Going(s, now', seen, live0, dirt0, false)
  {
    hide Tidy, Count;
  }

  // ----- the iterator under the calls -----

  lemma {:induction false} SameSize<V>(a: seq<(string, V)>, b: seq<(string, V)>)
    requires forall k :: Occ(a, k) == Occ(b, k)
    ensures |a| == |b|
    decreases |a|
  {
    hide Occ;
    if a == [] {
      if b != [] {
        OccIn(b, b[0].0);
        OccIn(a, b[0].0);
      }
    } else {
      var l := |a| - 1;
      var x := a[l].0;
      OccIn(a, x);
      OccIn(b, x);
      var j :| 0 <= j < |b| && b[j].0 == x;
      var c := b[..j] + b[j + 1..];
      forall k ensures Occ(a[..l], k) == Occ(c, k) {
        OccLess(a, l, k);
        OccLess(b, j, k);
        assert a[..l] + a[l + 1..] == a[..l];
      }
      SameSize(a[..l], c);
    }
  }

  lemma OccLess<V>(a: seq<(string, V)>, j: nat, k: string)
    requires j < |a|
    ensures Occ(a[..j] + a[j + 1..], k) == Occ(a, k) - if a[j].0 == k then 1 else 0
  {
    hide Occ;
    assert a == a[..j + 1] + a[j + 1..] && a[..j + 1] == a[..j] + [a[j]];
    OccConcat(a[..j + 1], a[j + 1..], k);
    OccConcat(a[..j], [a[j]], k);
    OccConcat(a[..j], a[j + 1..], k);
    OccOne(a[j].0, a[j].1, k);
  }

  /** Where no owed term is gone, the iterator goes on with the same terms, as they are now. */
  lemma GoesOn(store: Store<Posting>, t: Tree<Posting>, store': Store<Posting>, t': Tree<Posting>, p: string, path: seq<Frame>,
               todo: seq<Todo<Posting>>, seen: set<string>)
    requires Compressed(t) && Compressed(t') && Ready(store, t, p, path, todo) && Steady(store, t, store', t')
    requires ListsRest(MapOf(t), Rest(todo), seen) && forall e :: e in Rest(todo) ==> e.0 in MapOf(t')
    ensures Ready(store', t', p, path, Reread(todo, t'))
    ensures ListsRest(MapOf(t'), Rest(Reread(todo, t')), seen) && |Rest(Reread(todo, t'))| == |Rest(todo)|
  {
    hide Compressed, Ready, Lookup, Rest, Reread, Occ;
    StillThere(todo, t');
    assert Remain(todo, t');
    OwedAgain(store, t, store', t', p, path, todo);
    SameSize(Rest(Reread(todo, t')), Rest(todo));
    ListsAgain(MapOf(t), MapOf(t'), Rest(todo), Rest(Reread(todo, t')), seen);
  }

  lemma StillThere(todo: seq<Todo<Posting>>, t: Tree<Posting>)
    requires Compressed(t) && forall e :: e in Rest(todo) ==> e.0 in MapOf(t)
    ensures Remain(todo, t)
  {
    hide Rest, Lookup, Compressed, Owes;
    forall k | Owes(todo, k) ensures Lookup(t, k).Some? {
      StillKey(todo, k, MapOf(t));
      MapAt(t, k);
    }
  }

  lemma StillKey(todo: seq<Todo<Posting>>, k: string, c: Index)
    requires Owes(todo, k) && forall e :: e in Rest(todo) ==> e.0 in c
    ensures k in c
  {
    hide Rest;
    var i :| 0 <= i < |Rest(todo)| && Rest(todo)[i].0 == k;
    var e := Rest(todo)[i];
    assert e in Rest(todo);
    assert e.0 in c;
  }

  lemma ListsAgain(c: Index, c': Index, es: seq<(string, Posting)>, es': seq<(string, Posting)>, seen: set<string>)
    requires ListsRest(c, es, seen) && c'.Keys <= c.Keys && forall k :: Occ(es', k) == Occ(es, k)
    requires forall i :: 0 <= i < |es'| ==> es'[i].0 in c' && c'[es'[i].0] == es'[i].1
    ensures ListsRest(c', es', seen)
  {
    hide Occ, DistinctKeys;
    OccDistinct(es);
    OccDistinct(es');
    assert DistinctKeys(es') by {
      forall k ensures Occ(es', k) <= 1 { assert Occ(es, k) <= 1; }
    }
    forall t | t in c' ensures t in seen || exists i :: 0 <= i < |es'| && es'[i].0 == t {
      assert t in c;
      OccIn(es, t);
      OccIn(es', t);
    }
  }

  // ----- a pause -----

  lemma VacuumParts(v: Vacuuming)
    requires v.Intact()
    ensures Ready(v.m.index.store, v.m.index.tree, v.it.prefix, v.it.path, v.it.todo) && Compressed(v.m.index.tree)
    ensures ListsRest(MapOf(v.m.index.tree), Rest(v.it.todo), v.seen) && Rest(v.it.todo) == v.it.Future()
    ensures v.it.base == v.m.index && v.m.Valid() && v.m.index.Valid() && v.batchSize > 0
    ensures Going(v.s, v.m.Value(), v.seen, v.live0, v.initialDirt, v.whole)
  {
    hide *;
    v.Split();
    ItReady(v.it);
    HasTree(v.m.index);
    ContentIs(v.m.index);
    FutureIs(v.it);
  }

  lemma ContentIs(m: RadixMap<Posting>)
    requires m.Valid()
    ensures m.Content() == MapOf(m.tree)
  {
  }

  lemma FutureIs(it: RadixIterator<Posting>)
    ensures it.Future() == Rest(it.todo)
  {
  }

  /** One call. */
  method Serve(m: MiniSearch, call: Call, ghost s: State, ghost seen: set<string>, ghost live0: set<ShortId>,
               ghost dirt0: nat, ghost whole: bool)
    requires m.Valid() && m.index.Valid() && Going(s, m.Value(), seen, live0, dirt0, whole)
    modifies m, m.index
    ensures m.Valid() && m.index.Valid() && m.index == old(m.index)
    ensures Steady(old(m.index.store), old(m.index.tree), m.index.store, m.index.tree)
    ensures Going(AfterCall(m.options, s, call), m.Value(), seen, live0, dirt0, whole && !call.Searching?)
    ensures call.Discarding? ==> m.index.Content() == old(m.index.Content())
  {
    hide *;
    m.Parts();
    m.Fields();
    ghost var now := m.Value();
    CallIs(m.options, s, call);
    match call {
      case Discarding(id) =>
        NowTidy(s, now, seen, live0, dirt0, whole);
        SteadyStill(m.index.store, m.index.tree);
        GoingDiscard(m.options, s, now, seen, live0, dirt0, whole, id);
        var r := m.Discard(id);
      case Removing(doc) =>
        GoingRemove(m.options, s, now, seen, live0, dirt0, whole, doc);
        var r := m.Remove(doc);
      case Searching(qs, scope, op) =>
        var r := ExecuteQuery(m, qs, scope, op);
        GoingSearch(s, now, m.Value(), seen, live0, dirt0, whole);
    }
    m.Parts();
  }

  lemma CallIs(o: Options, s: State, call: Call)
    ensures AfterCall(o, s, call) == match call
      case Discarding(id) => Do(o, s, SearchState.Op.Discard(id))
      case Removing(doc) => Do(o, s, SearchState.Op.Remove(doc))
      case Searching(_, _, _) => s
  {
    hide Do;
  }

  /** Calls in a pause. The vacuum can go on, with the same terms ahead of it, if none of these is gone. */
  method During(m: MiniSearch, v: Vacuuming, calls: seq<Call>)
    requires v.Intact() && v.m == m
    modifies m, m.index, v`s, v`whole, v.it`todo
    ensures m.Valid() && m.index.Valid() && m.index == old(m.index)
    ensures v.s == AfterCalls(m.options, old(v.s), calls) && v.whole == (old(v.whole) && Quiet(calls))
    ensures Going(v.s, m.Value(), v.seen, v.live0, v.initialDirt, v.whole)
    ensures Discards(calls) ==> m.index.Content() == old(m.index.Content())
    ensures (forall e :: e in old(v.it.Future()) ==> e.0 in m.index.Content()) ==>
      v.Intact() && |v.it.Future()| == |old(v.it.Future())|
  {
    hide *;
    VacuumParts(v);
    ghost var store, tree, s, whole := m.index.store, m.index.tree, v.s, v.whole;
    SteadyStill(store, tree);
    NoCalls(m.options, s);
    QuietNone(calls);
    for j := 0 to |calls|
      modifies m, m.index
      invariant m.Valid() && m.index.Valid() && m.index == old(m.index)
      invariant Steady(store, tree, m.index.store, m.index.tree)
      invariant Going(AfterCalls(m.options, s, calls[..j]), m.Value(), v.seen, v.live0, v.initialDirt, whole && Quiet(calls[..j]))
      invariant Discards(calls) ==> m.index.Content() == old(m.index.Content())
    {
      ghost var store1, tree1 := m.index.store, m.index.tree;
      HasTree(m.index);
      NextCall(m.options, s, calls, j);
      OneDiscard(calls, j);
      Serve(m, calls[j], AfterCalls(m.options, s, calls[..j]), v.seen, v.live0, v.initialDirt, whole && Quiet(calls[..j]));
      SteadyOnward(store, tree, store1, tree1, m.index.store, m.index.tree);
    }
    assert calls[..|calls|] == calls;
    v.s, v.whole := AfterCalls(m.options, s, calls), whole && Quiet(calls);
    if forall e :: e in old(v.it.Future()) ==> e.0 in m.index.Content() {
      HasTree(m.index);
      ContentIs(m.index);
      GoesOn(store, tree, m.index.store, m.index.tree, v.it.prefix, v.it.path, v.it.todo, v.seen);
      v.it.Refresh();
      FutureIs(v.it);
      v.Compose();
    }
  }

  lemma QuietNone(calls: seq<Call>)
    ensures Quiet(calls[..0]) && calls[..0] == []
  {
  }

  /** A search in a pause answers as if there were no vacuum. */
  lemma SearchUnmoved(o: Options, s: State, now: State, seen: set<string>, live0: set<ShortId>, dirt0: nat, whole: bool,
                      q: Query, scope: Scope, d: ShortId)
    requires Going(s, now, seen, live0, dirt0, whole)
    ensures Answers(o, now, q, scope, d) <==> Answers(o, s, q, scope, d)
  {
    hide Answer, LiveSame, Tidy, Count;
    forall key ensures Answer(o, now, q, scope, d, key) == Answer(o, s, q, scope, d, key) {
      LiveAnswer(o, s, now.content, q, scope, d, key);
    }
  }

  // ----- a whole vacuum, with documents discarded in its pauses -----

  function Flatten(css: seq<seq<Call>>): seq<Call> {
    if css == [] then [] else Flatten(css[..|css| - 1]) + css[|css| - 1]
  }

  lemma FlattenNext(o: Options, s: State, css: seq<seq<Call>>, j: nat)
    requires j < |css|
    ensures AfterCalls(o, s, Flatten(css[..j + 1])) == AfterCalls(o, AfterCalls(o, s, Flatten(css[..j])), css[j])
  {
    hide AfterCalls;
    assert css[..j + 1][..j] == css[..j];
    MoreCalls(o, s, Flatten(css[..j]), css[j]);
  }

  lemma FlattenNone(o: Options, s: State, css: seq<seq<Call>>)
    ensures AfterCalls(o, s, Flatten(css[..0])) == s
  {
  }

  lemma DiscardsQuiet(calls: seq<Call>)
    requires Discards(calls)
    ensures Quiet(calls)
  {
  }

  /** What a pause finds is the index as the calls so far have left it, less some postings of dead documents. */
  lemma PauseLoses(s: State, now: State, seen: set<string>, live0: set<ShortId>, dirt0: nat, whole: bool)
    requires Going(s, now, seen, live0, dirt0, whole)
    ensures Loses(s, now)
  {
    hide Tidy, Count;
  }

  lemma SweptLoses(s: State, c: Index, live0: set<ShortId>, dirt: nat)
    requires Swept(s, c, live0)
    ensures Loses(s, s.(content := c, dirt := dirt))
  {
    hide Tidy, Count;
  }

  /** Discards never stand in the way. */
  method DuringDiscards(m: MiniSearch, v: Vacuuming, calls: seq<Call>)
    requires v.Intact() && m.index.Valid() && v.m == m && Discards(calls)
    modifies m, m.index, v`s, v`whole, v.it`todo
    ensures v.Intact() && |v.it.Future()| == |old(v.it.Future())|
    ensures m.Valid() && m.index.Valid() && m.index == old(m.index)
    ensures v.s == AfterCalls(m.options, old(v.s), calls) && v.whole == old(v.whole)
  {
    hide *;
    v.Split();
    DiscardsQuiet(calls);
    StillListed(m.index.Content(), v.it.Future(), v.seen);
    During(m, v, calls);
  }

  lemma {:induction false} DistinctSize(es: seq<(string, Posting)>)
    requires DistinctKeys(es)
    ensures |set i | 0 <= i < |es| :: es[i].0| == |es|
  {
    if es != [] {
      var l := |es| - 1;
      DistinctSize(es[..l]);
      assert (set i | 0 <= i < |es| :: es[i].0) == (set i | 0 <= i < l :: es[..l][i].0) + {es[l].0};
    }
  }

  lemma ListsAll(c: Index, es: seq<(string, Posting)>)
    requires ListsRest(c, es, {})
    ensures |es| == |c|
  {
    DistinctSize(es);
    assert (set i | 0 <= i < |es| :: es[i].0) == c.Keys;
  }

  /** How many of the pauses after every `size` of `n` terms there is room for. */
  function Pauses(n: nat, size: nat, room: nat): nat
    requires size > 0
  {
    if n / size <= room then n / size else room
  }

  /** A vacuum from where it is to its end. */
  method Drive(m: MiniSearch, v: Vacuuming, meanwhile: seq<seq<Call>>) returns (pauses: nat)
    requires v.Intact() && v.m == m && m.index.Valid() && v.n == 1 && v.whole
    requires forall j :: 0 <= j < |meanwhile| ==> Discards(meanwhile[j])
    modifies m, m.index, v, v.it
    ensures m.Valid() && m.index.Valid() && m.index == old(m.index) && pauses <= |meanwhile|
    ensures v.batchSize > 0 && pauses == Pauses(|old(v.it.Future())|, v.batchSize, |meanwhile|)
    ensures v.s == AfterCalls(m.options, old(v.s), Flatten(meanwhile[..pauses])) && v.s.dirt >= v.initialDirt
    ensures Swept(v.s, m.index.Content(), v.live0) && AllOrNone(v.s, m.index.Content())
    ensures m.Value() == v.s.(content := m.index.Content(), dirt := v.s.dirt - v.initialDirt)
  {
    hide *;
    v.Split();
    ghost var (s0, terms, all) := (v.s, |v.it.Future()|, 0);
    pauses := 0;
    FlattenNone(m.options, s0, meanwhile);
    while true
      invariant m.index == old(m.index) && v.Intact() && m.Valid() && m.index.Valid() && v.whole
      invariant pauses == (if all <= |meanwhile| then all else |meanwhile|) && all == (v.n - 1) / v.batchSize
      invariant v.n > 0 && v.n - 1 + |v.it.Future()| == terms && v.batchSize > 0
      invariant v.s == AfterCalls(m.options, s0, Flatten(meanwhile[..pauses]))
      decreases |v.it.Future()|
    {
      var done := v.Resume();
      if done { break; }
      all := all + 1;
      if pauses < |meanwhile| {
        FlattenNext(m.options, s0, meanwhile, pauses);
        DuringDiscards(m, v, meanwhile[pauses]);
        pauses := pauses + 1;
      }
    }
    PausesAre(terms, v.batchSize, |meanwhile|);
  }

  lemma PausesAre(n: nat, size: nat, room: nat)
    requires size > 0
    ensures Pauses(n, size, room) == if n / size <= room then n / size else room
  {
  }

  /** `meanwhile` says what is discarded in which of the pauses: one after every `batchSize` terms. */
  method Vacuum(m: MiniSearch, batchSize: nat, meanwhile: seq<seq<Call>>) returns (pauses: nat)
    requires m.Valid() && batchSize > 0 && forall j :: 0 <= j < |meanwhile| ==> Discards(meanwhile[j])
    modifies m, m.index
    ensures m.Valid() && m.index.Valid() && m.index == old(m.index) && pauses <= |meanwhile|
    ensures pauses == Pauses(|old(m.index.Content())|, batchSize, |meanwhile|)
    ensures var s := AfterCalls(m.options, old(m.Value()), Flatten(meanwhile[..pauses]));
      && s.dirt >= old(m.dirtCount)
      && m.Value() == s.(content := m.index.Content(), dirt := s.dirt - old(m.dirtCount))
      && Swept(s, m.index.Content(), old(m.documentIds.Keys)) && AllOrNone(s, m.index.Content())
      && Loses(s, m.Value())
  {
    hide *;
    m.Parts();
    m.Fields();
    var v := new Vacuuming(m, batchSize);
    v.Split();
    m.Fields();
    ListsAll(m.index.Content(), v.it.Future());
    pauses := Drive(m, v, meanwhile);
    SweptLoses(v.s, m.index.Content(), v.live0, v.s.dirt - v.initialDirt);
  }

  lemma StillListed(c: Index, es: seq<(string, Posting)>, seen: set<string>)
    requires ListsRest(c, es, seen)
    ensures forall e :: e in es ==> e.0 in c
  {
  }
}

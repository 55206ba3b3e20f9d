/** Vacuuming: walk the whole index in batches and drop the postings of discarded
    documents, while others use the index between batches. */
module SearchVacuum {
  import opened JsMaps
  import opened RadixTree
  import opened RadixStore
  import opened RadixEntries
  import opened RadixMaps
  import opened RadixIterators
  import opened Postings
  import opened SearchDocs
  import opened SearchState
  import opened SearchIndex

  // ----- the postings of one term -----

  /** One field of a term, document by document. The field goes with its last document. */
  method PurgeField(e: map<ShortId, nat>, live: map<ShortId, Id>) returns (left: map<ShortId, nat>, dropped: bool)
    requires e != map[]
    ensures dropped <==> e.Keys * live.Keys == {}
    ensures !dropped ==> left == Kept(e, live.Keys)
  {
    left, dropped := e, false;
    var ds := e.Keys;
    while ds != {}
      invariant ds <= e.Keys
      invariant !dropped ==> left != map[] && left == Remaining(e, live.Keys, ds)
      invariant dropped ==> ds == {} && e.Keys * live.Keys == {}
    {
      var d :| d in ds;
      RestStep(e, live.Keys, ds, d);
      if d !in live {
        if |left| <= 1 {
          OnlyOne(left, d);
          dropped := true;
        } else {
          MoreThanOne(left, d);
          left := left - {d};
        }
      }
      ds := ds - {d};
    }
    if !dropped { SomeLeft(left); }
  }

  /** What is left of a field while the documents in `ds` are still to be looked at. */
  ghost function Remaining(e: map<ShortId, nat>, live: set<ShortId>, ds: set<ShortId>): map<ShortId, nat> {
    map d | d in e && (d in ds || d in live) :: e[d]
  }

  lemma RestStep(e: map<ShortId, nat>, live: set<ShortId>, ds: set<ShortId>, d: ShortId)
    requires d in ds && ds <= e.Keys
    ensures Remaining(e, live, ds - {d}) == (if d in live then Remaining(e, live, ds) else Remaining(e, live, ds) - {d})
    ensures d in Remaining(e, live, ds)
  {
  }

  lemma SomeLeft(m: map<ShortId, nat>)
    requires m != map[]
    ensures exists d :: d in m
  {
    assert m.Keys != {};
  }

  method PurgePosting(p: Posting, live: map<ShortId, Id>) returns (r: Posting)
    requires TidyIn(p)
    ensures r == Purge(p, live.Keys)
  {
    r := p;
    var fs := p.Keys;
    ghost var done := {};
    while fs != {}
      invariant fs == p.Keys - done && done <= p.Keys
      invariant r == PurgeOf(p, live.Keys, done)
    {
      var f :| f in fs;
      var left, dropped := PurgeField(p[f], live);
      PurgeOfStep(p, live.Keys, done, f);
      if dropped { r := r - {f}; } else { r := r[f := left]; }
      fs := fs - {f};
      done := done + {f};
    }
    assert done == p.Keys;
  }

  lemma PurgeOfStep(p: Posting, live: set<ShortId>, done: set<FieldId>, f: FieldId)
    requires f in p
    ensures PurgeOf(p, live, done + {f}) ==
      if p[f].Keys * live == {} then PurgeOf(p, live, done) - {f}
      else PurgeOf(p, live, done)[f := Kept(p[f], live)]
  {
  }

  /** The fields in `done` are purged. */
  ghost function PurgeOf(p: Posting, live: set<ShortId>, done: set<FieldId>): Posting {
    map f | f in p && (f in done ==> p[f].Keys * live != {}) ::
      if f in done then Kept(p[f], live) else p[f]
  }

  // ----- one term and the iterator -----

  ghost function KeysIn<V>(es: seq<(string, V)>): set<string> {
    set i | 0 <= i < |es| :: es[i].0
  }

  lemma KeysMore<V>(all: seq<(string, V)>, i: nat)
    requires DistinctKeys(all) && i < |all|
    ensures all[i].0 !in KeysIn(all[..i]) && KeysIn(all[..i + 1]) == KeysIn(all[..i]) + {all[i].0}
  {
    var a, b := all[..i], all[..i + 1];
    forall k
      ensures k in KeysIn(b) <==> k in KeysIn(a) || k == all[i].0
    {
      if k in KeysIn(b) {
        var j :| 0 <= j < |b| && b[j].0 == k;
        if j < i { assert a[j].0 == k; }
      }
      if k in KeysIn(a) {
        var j :| 0 <= j < |a| && a[j].0 == k;
        assert b[j].0 == k;
      }
      if k == all[i].0 { assert b[i].0 == k; }
    }
  }

  lemma NoKeys(all: seq<(string, Posting)>)
    ensures KeysIn(all[..0]) == {}
  {
  }

  /** The iterator survives what happens to the key it has just yielded. */
  lemma Survives(it: RadixIterator<Posting>, store: Store<Posting>, tree: Tree<Posting>, all: seq<(string, Posting)>, i: nat)
    requires it.base.Valid() && Ready(store, tree, it.prefix, it.path, it.todo)
    requires DistinctKeys(all) && i < |all| && it.Future() == all[i + 1..]
    requires Undisturbed(store, tree, it.base.store, it.base.tree, all[i].0)
    ensures it.Valid()
  {
    hide Ready, Owes;
    NotOwed(it.todo, all, i);
  }

  lemma ItReady(it: RadixIterator<Posting>)
    requires it.Valid()
    ensures Ready(it.base.store, it.base.tree, it.prefix, it.path, it.todo)
  {
  }

  function PurgedAt(c: Index, k: string, live: set<ShortId>): Index
    requires k in c
  {
    if Purge(c[k], live) == map[] then c - {k} else c[k := Purge(c[k], live)]
  }

  lemma PurgedIs(c: Index, k: string, live: set<ShortId>)
    requires k in c
    ensures PurgedAt(c, k, live) == if Purge(c[k], live) == map[] then c - {k} else c[k := Purge(c[k], live)]
  {
  }

  /** One term. */
  method VacuumTerm(m: RadixMap<Posting>, it: RadixIterator<Posting>, k: string, p: Posting, live: map<ShortId, Id>,
                    ghost all: seq<(string, Posting)>, ghost i: nat)
    requires m.Valid() && it.base == m && it.Valid() && k in m.Content() && m.Content()[k] == p && TidyIn(p)
    requires DistinctKeys(all) && i < |all| && all[i].0 == k && it.Future() == all[i + 1..]
    modifies m
    ensures m.Valid() && it.Valid() && it.Future() == old(it.Future())
    ensures m.Content() == PurgedAt(old(m.Content()), k, live.Keys)
  {
    hide *;
    ItReady(it);
    PurgedIs(m.Content(), k, live.Keys);
    var left := PurgePosting(p, live);
    StoreBack(m, k, left);
    Survives(it, old(m.store), old(m.tree), all, i);
  }

  // ----- where a vacuum stands -----

  /** `c` has the postings of the live documents of `s`, and under the terms in `seen` none of documents
      that were dead when the vacuum started. */
  ghost predicate Sweeping(s: State, c: Index, seen: set<string>, live0: set<ShortId>) {
    && LiveSame(s, c)
    && (forall t, f: FieldId, d: ShortId :: Count(c, t, f, d) <= Count(s.content, t, f, d))
    && (forall t, f: FieldId, d: ShortId :: t in seen && d !in live0 ==> Count(c, t, f, d) == 0)
  }

  /** No posting is lost in part. */
  ghost predicate AllOrNone(s: State, c: Index) {
    forall t, f: FieldId, d: ShortId :: Count(c, t, f, d) == Count(s.content, t, f, d) || Count(c, t, f, d) == 0
  }

  /** At the end. */
  ghost predicate Swept(s: State, c: Index, live0: set<ShortId>) {
    && LiveSame(s, c)
    && (forall t, f: FieldId, d: ShortId :: Count(c, t, f, d) <= Count(s.content, t, f, d))
    && (forall t, f: FieldId, d: ShortId :: d !in live0 ==> Count(c, t, f, d) == 0)
  }

  /** The index is `now`; without the vacuum it would be `s`. As long as nobody has searched, each posting is whole or gone. */
  ghost predicate Going(s: State, now: State, seen: set<string>, live0: set<ShortId>, dirt0: nat, whole: bool) {
    && now == s.(content := now.content) && s.ids.Keys <= live0 && s.dirt >= dirt0 && Tidy(s.content)
    && Sweeping(s, now.content, seen, live0)
    && (whole ==> AllOrNone(s, now.content))
  }

  /** The entries still to come: each once, as they are now, and with those in `seen` they are all. */
  ghost predicate ListsRest(c: Index, es: seq<(string, Posting)>, seen: set<string>) {
    && DistinctKeys(es)
    && (forall i :: 0 <= i < |es| ==> es[i].0 in c && c[es[i].0] == es[i].1)
    && (forall t :: t in c ==> t in seen || exists i :: 0 <= i < |es| && es[i].0 == t)
  }

  lemma GoingStart(s: State)
    requires Coherent(s)
    ensures Going(s, s, {}, s.ids.Keys, s.dirt, true)
  {
    hide Tidy, Count;
  }

  lemma ListsStart(c: Index, es: seq<(string, Posting)>)
    requires ListsPrefix(c, "", es)
    ensures ListsRest(c, es, {})
  {
    forall t | t in c ensures exists i :: 0 <= i < |es| && es[i].0 == t {
      assert t[..0] == "";
    }
  }

  lemma PurgedCount(c: Index, k: string, live: set<ShortId>)
    requires Tidy(c) && k in c
    ensures var c' := PurgedAt(c, k, live);
      Tidy(c') && forall t, f: FieldId, d: ShortId :: Count(c', t, f, d) == if t == k && d !in live then 0 else Count(c, t, f, d)
  {
    hide TidyIn, CountIn, Purge;
    var c' := PurgedAt(c, k, live);
    PurgeCount(c[k], live);
    NoneIn();
    forall t, f: FieldId, d: ShortId
      ensures Count(c', t, f, d) == if t == k && d !in live then 0 else Count(c, t, f, d)
    {
      if t == k { assert CountIn(Purge(c[k], live), f, d) == if d in live then CountIn(c[k], f, d) else 0; }
    }
  }

  lemma GoingStep(s: State, now: State, seen: set<string>, live0: set<ShortId>, dirt0: nat, whole: bool, k: string)
    requires Going(s, now, seen, live0, dirt0, whole) && k in now.content
    ensures var next := now.(content := PurgedAt(now.content, k, now.ids.Keys));
      Going(s, next, seen + {k}, live0, dirt0, whole) && Loses(now, next)
  {
    hide Tidy, Count, PurgedAt;
    PurgedCount(now.content, k, now.ids.Keys);
  }

  lemma ListsStep(c: Index, es: seq<(string, Posting)>, seen: set<string>, live: set<ShortId>)
    requires ListsRest(c, es, seen) && es != [] && Tidy(c)
    ensures var (k, p) := es[0];
      && DistinctKeys(es) && k in c && c[k] == p && TidyIn(p)
      && ListsRest(PurgedAt(c, k, live), es[1..], seen + {k})
  {
    hide TidyIn, Purge;
    var (k, p) := es[0];
    var c' := PurgedAt(c, k, live);
    forall i, j | 0 <= i < j < |es[1..]| ensures es[1..][i].0 != es[1..][j].0 {
      assert es[i + 1].0 != es[j + 1].0;
    }
    forall i | 0 <= i < |es[1..]| ensures es[1..][i].0 in c' && c'[es[1..][i].0] == es[1..][i].1 {
      assert es[0].0 != es[i + 1].0;
    }
    forall t | t in c' && t !in seen + {k} ensures exists i :: 0 <= i < |es[1..]| && es[1..][i].0 == t {
      var i :| 0 <= i < |es| && es[i].0 == t;
      assert es[1..][i - 1] == es[i];
    }
  }

  lemma GoingEnd(s: State, now: State, seen: set<string>, live0: set<ShortId>, dirt0: nat, whole: bool)
    requires Going(s, now, seen, live0, dirt0, whole) && ListsRest(now.content, [], seen)
    ensures Swept(s, now.content, live0) && now.dirt >= dirt0 && now.ids == s.ids
    ensures Loses(now, now.(dirt := now.dirt - dirt0))
    ensures whole ==> AllOrNone(s, now.content)
  {
    hide Tidy, CountIn;
  }

  lemma NowTidy(s: State, now: State, seen: set<string>, live0: set<ShortId>, dirt0: nat, whole: bool)
    requires Going(s, now, seen, live0, dirt0, whole)
    ensures Tidy(now.content) && now == s.(content := now.content) && now.dirt >= dirt0
  {
  }

  lemma StateTidy(s: State)
    requires Coherent(s)
    ensures Tidy(s.content)
  {
  }

  lemma Batches(n: nat, size: nat)
    requires n > 0 && size > 0
    ensures n / size == (n - 1) / size + if n % size == 0 then 1 else 0
  {
    var q, r := (n - 1) / size, (n - 1) % size;
    assert n == q * size + r + 1;
    if r + 1 == size {
      assert n == (q + 1) * size;
      Quotient(n, size, q + 1, 0);
    } else {
      Quotient(n, size, q, r + 1);
    }
  }

  lemma Quotient(n: nat, size: nat, q: nat, r: nat)
    requires size > 0 && n == q * size + r && r < size
    ensures n / size == q && n % size == r
  {
    var p := n / size;
    if p > q { FurtherOn(p, q, size); } else if p < q { FurtherOn(q, p, size); }
  }

  lemma FurtherOn(p: nat, q: nat, size: nat)
    requires p > q
    ensures p * size >= q * size + size
  {
    assert p * size == q * size + size + (p - q - 1) * size;
  }

  /** `performVacuuming`, once its conditions are met: a call that comes back after every batch, when others may run. */
  class Vacuuming {
    const m: MiniSearch
    const batchSize: nat
    const initialDirt: nat
    const it: RadixIterator<Posting>
    /** The number of the next term, from 1. */
    var n: nat
    /** The live documents at the start. */
    ghost const live0: set<ShortId>
    /** What the index would be by now without the vacuum. */
    ghost var s: State
    ghost var seen: set<string>
    /** Nobody has searched in a pause. */
    ghost var whole: bool

    ghost predicate Intact()
      reads this, it, m, m.index
    {
      && m.Valid() && it.base == m.index && it.Valid() && batchSize > 0
      && Going(s, m.Value(), seen, live0, initialDirt, whole)
      && ListsRest(m.index.Content(), it.Future(), seen)
    }

    constructor (m: MiniSearch, batchSize: nat)
      requires m.Valid() && batchSize > 0
      modifies m.index
      ensures Intact() && m.index.Valid() && fresh(it) && this.m == m
      ensures m.index == old(m.index) && m.Value() == old(m.Value())
      ensures s == m.Value() && live0 == m.documentIds.Keys && initialDirt == m.dirtCount && whole
      ensures n == 1 && seen == {} && this.batchSize == batchSize
    {
      hide *;
      m.Parts();
      m.Fields();
      GoingStart(m.Value());
      var i := AtPrefix(m.index, "");
      m.Fields();
      m.Whole();
      ListsStart(m.index.Content(), i.Future());
      this.m, this.batchSize, initialDirt, it, n := m, batchSize, m.dirtCount, i, 1;
      live0, s, seen, whole := m.documentIds.Keys, m.Value(), {}, true;
      new;
      Compose();
    }

    lemma Split()
      requires Intact()
      ensures m.Valid() && m.index.Valid() && it.base == m.index && it.Valid() && batchSize > 0
      ensures Going(s, m.Value(), seen, live0, initialDirt, whole)
      ensures ListsRest(m.index.Content(), it.Future(), seen)
    {
    }

    lemma Compose()
      requires m.Valid() && m.index.Valid() && it.base == m.index && it.Valid() && batchSize > 0
      requires Going(s, m.Value(), seen, live0, initialDirt, whole)
      requires ListsRest(m.index.Content(), it.Future(), seen)
      ensures Intact()
    {
    }

    /** Up to the next pause, or to the end. A pause comes after every `batchSize` terms, and only then. */
    method Resume() returns (done: bool)
      requires Intact() && n > 0
      modifies this`n, this`seen, it, m.index, m`dirtCount
      ensures m.Valid() && m.index.Valid() && m.index == old(m.index)
      ensures Loses(old(m.Value()), m.Value())
      ensures !done ==> Intact() && |it.Future()| < |old(it.Future())|
      ensures n == old(n) + |old(it.Future())| - |it.Future()|
      ensures (n - 1) / batchSize == (old(n) - 1) / batchSize + if done then 0 else 1
      ensures if done then it.Future() == [] else (n - 1) % batchSize == 0
      ensures done ==>
        && Swept(s, m.index.Content(), live0) && (whole ==> AllOrNone(s, m.index.Content()))
        && s.dirt >= initialDirt
        && m.Value() == s.(content := m.index.Content(), dirt := s.dirt - initialDirt)
    {
      hide *;
      Split();
      m.Parts();
      ghost var start := m.Value();
      LosesNothing(start);
      done := false;
      while true
        invariant !done && Intact() && m.index.Valid() && m.index == old(m.index)
        invariant n == old(n) + |old(it.Future())| - |it.Future()| && n >= old(n)
        invariant (n - 1) / batchSize == (old(n) - 1) / batchSize
        invariant Loses(start, m.Value())
        decreases |it.Future()|
      {
        Split();
        label Here:
        var e := it.Next();
        if e == None {
          Finish(start);
          return true;
        }
        var paused := n % batchSize == 0;
        Batches(n, batchSize);
        n := n + 1;
        assert it.Future() == old@Here(it.Future())[1..] && [e.value] + it.Future() == old@Here(it.Future());
        Sweep(e.value, start);
        if paused {
          Split();
          return false;
        }
      }
    }

    /** The body of the loop. */
    method Sweep(e: (string, Posting), ghost start: State)
      requires m.Valid() && m.index.Valid() && it.base == m.index && it.Valid() && batchSize > 0
      requires Going(s, m.Value(), seen, live0, initialDirt, whole)
      requires ListsRest(m.index.Content(), [e] + it.Future(), seen) && Loses(start, m.Value())
      modifies this`seen, m.index
      ensures Intact() && m.index.Valid() && m.index == old(m.index) && it.Future() == old(it.Future()) && Loses(start, m.Value())
    {
      hide *;
      ghost var now, all := m.Value(), [e] + it.Future();
      m.Parts();
      m.Fields();
      NowTidy(s, now, seen, live0, initialDirt, whole);
      assert all[1..] == it.Future() && all[0] == e;
      ListsStep(now.content, all, seen, now.ids.Keys);
      GoingStep(s, now, seen, live0, initialDirt, whole, e.0);
      VacuumTerm(m.index, it, e.0, e.1, m.documentIds, all, 0);
      seen := seen + {e.0};
      m.Fields();
      LosesCoherent(now, m.Value());
      LosesMore(start, now, m.Value());
      m.Whole();
      Compose();
    }

    /** What was dirty at the start no longer is. */
    method Finish(ghost start: State)
      requires m.Valid() && m.index.Valid() && Going(s, m.Value(), seen, live0, initialDirt, whole)
      requires ListsRest(m.index.Content(), [], seen) && Loses(start, m.Value())
      modifies m`dirtCount
      ensures m.Valid() && m.index.Valid() && m.index == old(m.index) && Loses(start, m.Value())
      ensures Swept(s, m.index.Content(), live0) && (whole ==> AllOrNone(s, m.index.Content()))
      ensures s.dirt >= initialDirt && m.Value() == s.(content := m.index.Content(), dirt := s.dirt - initialDirt)
    {
      hide *;
      ghost var now := m.Value();
      m.Parts();
      m.Fields();
      NowTidy(s, now, seen, live0, initialDirt, whole);
      GoingEnd(s, now, seen, live0, initialDirt, whole);
      m.dirtCount := m.dirtCount - initialDirt;
      m.Fields();
      LosesCoherent(now, m.Value());
      LosesMore(start, now, m.Value());
      m.Whole();
    }
  }

  /** Without interruption, exactly the postings of live documents are left. */
  lemma SweptAll(s: State, c: Index)
    requires Tidy(s.content) && Swept(s, c, s.ids.Keys)
    ensures c == PurgeAll(s.content, s.ids.Keys)
  {
    hide Tidy, Count, PurgeAll;
    PurgeAllCount(s.content, s.ids.Keys);
    SweptTidy(s, c, s.ids.Keys);
    TidyEq(c, PurgeAll(s.content, s.ids.Keys));
  }

  lemma SweptTidy(s: State, c: Index, live0: set<ShortId>)
    requires Swept(s, c, live0)
    ensures Tidy(c)
  {
  }

  method VacuumNow(m: MiniSearch, batchSize: nat)
    requires m.Valid() && batchSize > 0
    modifies m, m.index
    ensures m.Valid() && m.index == old(m.index)
    ensures m.Value() == Do(m.options, old(m.Value()), SearchState.Op.Vacuum)
  {
    hide *;
    m.Parts();
    m.Fields();
    ghost var s0 := m.Value();
    var v := new Vacuuming(m, batchSize);
    v.Split();
    var done := false;
    while !done
      invariant fresh(v) && fresh(v.it) && v.m == m && m.index == old(m.index) && m.Valid() && m.index.Valid() && v.s == s0
      invariant v.initialDirt == s0.dirt && v.live0 == s0.ids.Keys
      invariant !done ==> v.Intact() && v.n > 0
      invariant done ==> Swept(s0, m.index.Content(), s0.ids.Keys) && m.Value() == s0.(content := m.index.Content(), dirt := 0)
      decreases !done, |v.it.Future()|
    {
      done := v.Resume();
    }
    StateTidy(s0);
    SweptAll(s0, m.index.Content());
    VacuumIs(m.options, s0);
  }

  lemma VacuumIs(o: Options, s: State)
    ensures Do(o, s, SearchState.Op.Vacuum) == s.(content := PurgeAll(s.content, s.ids.Keys), dirt := 0)
  {
  }
}

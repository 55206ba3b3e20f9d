/** Looking terms up: exactly, by prefix and approximately, while postings of discarded
    documents are cleaned up on the way. */
module SearchQuery {
  import opened JsMaps
  import opened RadixEntries
  import opened RadixMaps
  import opened RadixIterators
  import opened Levenshtein
  import opened FuzzySearch
  import FuzzyExact
  import opened Postings
  import opened SearchDocs
  import opened SearchState
  import opened SearchIndex
  import opened SearchVacuum

  type Fraction = x: real | 0.0 <= x < 1.0 witness 0.0

  datatype Fuzziness = Strict | Share(part: Fraction) | Edits(k: nat)

  datatype Query = Query(term: string, prefix: bool, fuzzy: Fuzziness)

  /** `boosts` says whether `boostDocument` gives a document any weight for a term. */
  datatype Scope = Scope(fields: seq<string>, maxFuzzy: nat, boosts: (Id, string) -> bool)

  /** Document, then matching term, then the fields it was found in. */
  type Results = map<ShortId, map<string, seq<string>>>

  function MatchOf(r: Results, d: ShortId, key: string): seq<string> {
    if d in r && key in r[d] then r[d][key] else []
  }

  /** No empty record. */
  ghost predicate Filled(r: Results) {
    forall d :: d in r ==> r[d] != map[] && forall key :: key in r[d] ==> r[d][key] != []
  }

  /** The keys of an object that the names were entered into. */
  function ObjectKeys(names: seq<string>): seq<string> {
    if names == [] then []
    else
      var xs := ObjectKeys(names[..|names| - 1]);
      if names[|names| - 1] in xs then xs else xs + [names[|names| - 1]]
  }

  lemma {:induction false} ObjectKeysAre(names: seq<string>)
    ensures DistinctNames(ObjectKeys(names))
    ensures forall x :: x in ObjectKeys(names) <==> x in names
  {
    if names != [] {
      var l := |names| - 1;
      ObjectKeysAre(names[..l]);
      assert names == names[..l] + [names[l]];
    }
  }

  // ----- one field of one term -----

  function Noted(r: Results, d: ShortId, key: string, x: string): Results {
    if d in r then r[d := r[d][key := (if key in r[d] then r[d][key] else []) + [x]]]
    else r[d := map[key := [x]]]
  }

  lemma NotedIs(r: Results, d: ShortId, key: string, x: string)
    ensures forall d', k ::
      MatchOf(Noted(r, d, key, x), d', k) == if d' == d && k == key then MatchOf(r, d, key) + [x] else MatchOf(r, d', k)
    ensures Filled(r) ==> Filled(Noted(r, d, key, x))
  {
    var r' := Noted(r, d, key, x);
    assert key in r'[d];
  }

  /** Postings in `visited` of dead documents are lowered by one. */
  ghost predicate Lowered(c: Index, c': Index, key: string, fs: set<FieldId>, ds: set<ShortId>, live: set<ShortId>) {
    && Tidy(c')
    && forall t, f: FieldId, d: ShortId :: Count(c', t, f, d) ==
         Less(Count(c, t, f, d), One(t == key && f in fs && d in ds && d !in live))
  }

  lemma LoweredNone(c: Index, key: string, f: FieldId, live: set<ShortId>)
    requires Tidy(c)
    ensures Lowered(c, c, key, {f}, {}, live)
  {
    hide Tidy, Count;
  }

  lemma LoweredLive(c: Index, c': Index, key: string, f: FieldId, ds: set<ShortId>, live: set<ShortId>, d: ShortId)
    requires Lowered(c, c', key, {f}, ds, live) && d in live
    ensures Lowered(c, c', key, {f}, ds + {d}, live)
  {
    hide Tidy, Count;
  }

  lemma LoweredDead(c: Index, c': Index, key: string, f: FieldId, ds: set<ShortId>, live: set<ShortId>, d: ShortId)
    requires Lowered(c, c', key, {f}, ds, live) && d !in live && d !in ds
    ensures Lowered(c, Step(c', d, (f, key), false), key, {f}, ds + {d}, live)
  {
    hide Tidy, Count, Step;
    StepCount(c', d, (f, key), false);
  }

  /** The documents in `ds` are noted, if they are live and weigh anything. */
  ghost predicate NotedIn(r: Results, r': Results, key: string, x: string, ds: set<ShortId>, ids: map<ShortId, Id>, scope: Scope) {
    && (Filled(r) ==> Filled(r'))
    && forall d, k :: MatchOf(r', d, k) ==
         if k == key && d in ds && d in ids && scope.boosts(ids[d], key) then MatchOf(r, d, k) + [x] else MatchOf(r, d, k)
  }

  lemma NotedStep(r: Results, r': Results, key: string, x: string, ds: set<ShortId>, ids: map<ShortId, Id>, scope: Scope, d: ShortId)
    requires NotedIn(r, r', key, x, ds, ids, scope) && d !in ds
    ensures NotedIn(r, if d in ids && scope.boosts(ids[d], key) then Noted(r', d, key, x) else r', key, x, ds + {d}, ids, scope)
  {
    hide MatchOf, Filled, Noted;
    NotedIs(r', d, key, x);
  }

  /** The inner loop of `termResults`. */
  method FieldResults(m: RadixMap<Posting>, ids: map<ShortId, Id>, key: string, x: string, f: FieldId, u: map<ShortId, nat>,
                      scope: Scope, results: Results) returns (r: Results)
    requires m.Valid() && Tidy(m.Content())
    modifies m
    ensures m.Valid() && Lowered(old(m.Content()), m.Content(), key, {f}, u.Keys, ids.Keys)
    ensures Undisturbed(old(m.store), old(m.tree), m.store, m.tree, key)
    ensures Steady(old(m.store), old(m.tree), m.store, m.tree)
    ensures NotedIn(results, r, key, x, u.Keys, ids, scope)
  {
    hide *;
    ghost var c, store, tree := m.Content(), m.store, m.tree;
    Still(store, tree, key);
    SteadyStill(store, tree);
    HasTree(m);
    LoweredNone(c, key, f, ids.Keys);
    r := results;
    NotedNone(r, key, x, ids, scope);
    var ds := u.Keys;
    ghost var done := {};
    while ds != {}
      invariant ds == u.Keys - done && done <= u.Keys && m.Valid()
      invariant Lowered(c, m.Content(), key, {f}, done, ids.Keys)
      invariant Undisturbed(store, tree, m.store, m.tree, key) && Steady(store, tree, m.store, m.tree)
      invariant NotedIn(results, r, key, x, done, ids, scope)
    {
      var d :| d in ds;
      NotedStep(results, r, key, x, done, ids, scope, d);
      if d !in ids {
        LoweredDead(c, m.Content(), key, f, done, ids.Keys, d);
        ghost var store1, tree1 := m.store, m.tree;
        HasTree(m);
        RemoveTerm(m, f, d, key);
        Onward(store, tree, store1, tree1, m.store, m.tree, key);
        SteadyOnward(store, tree, store1, tree1, m.store, m.tree);
      } else {
        LoweredLive(c, m.Content(), key, f, done, ids.Keys, d);
        if scope.boosts(ids[d], key) {
          r := Noted(r, d, key, x);
        }
      }
      ds := ds - {d};
      done := done + {d};
    }
    assert done == u.Keys;
  }

  lemma NotedNone(r: Results, key: string, x: string, ids: map<ShortId, Id>, scope: Scope)
    ensures NotedIn(r, r, key, x, {}, ids, scope)
  {
  }

  // ----- all fields of one term -----

  /** The fields among `names` in which document `d` has the term. */
  ghost function PostedFields(c: Index, fids: map<string, FieldId>, names: seq<string>, key: string, d: ShortId): seq<string> {
    if names == [] then []
    else
      var x := names[|names| - 1];
      PostedFields(c, fids, names[..|names| - 1], key, d) +
      (if x in fids && Count(c, key, fids[x], d) > 0 then [x] else [])
  }

  /** What a search should say about a document and a term. */
  ghost function Expected(c: Index, ids: map<ShortId, Id>, fids: map<string, FieldId>, names: seq<string>, scope: Scope,
                          key: string, d: ShortId): seq<string> {
    if d in ids && scope.boosts(ids[d], key) then PostedFields(c, fids, names, key, d) else []
  }

  ghost function FieldsOf(fids: map<string, FieldId>, names: seq<string>): set<FieldId> {
    set x | x in names && x in fids :: fids[x]
  }

  /** Under the terms in `keys`, every posting of a dead document in a selected field is one
      lower than it was; nothing else has changed. */
  ghost predicate Cleaned(c: Index, c': Index, keys: set<string>, fs: set<FieldId>, live: set<ShortId>) {
    && Tidy(c')
    && forall t, f: FieldId, d: ShortId :: Count(c', t, f, d) == Less(Count(c, t, f, d), One(t in keys && f in fs && d !in live))
  }

  /** The term `key` is reported on top of `results`. */
  ghost predicate Reports(results: Results, r: Results, c: Index, ids: map<ShortId, Id>, fids: map<string, FieldId>,
                          names: seq<string>, scope: Scope, key: string) {
    && (Filled(results) ==> Filled(r))
    && forall d, k :: MatchOf(r, d, k) ==
         if k == key then MatchOf(results, d, k) + Expected(c, ids, fids, names, scope, key, d) else MatchOf(results, d, k)
  }

  lemma TermStart(results: Results, c: Index, ids: map<ShortId, Id>, fids: map<string, FieldId>, scope: Scope, key: string)
    requires Tidy(c)
    ensures Cleaned(c, c, {key}, FieldsOf(fids, []), ids.Keys) && Reports(results, results, c, ids, fids, [], scope, key)
  {
    hide Tidy, Count, MatchOf, Filled;
  }

  lemma PostedMore(c: Index, ids: map<ShortId, Id>, fids: map<string, FieldId>, names: seq<string>, i: nat,
                   scope: Scope, key: string, d: ShortId)
    requires i < |names|
    ensures Expected(c, ids, fids, names[..i + 1], scope, key, d) == Expected(c, ids, fids, names[..i], scope, key, d) +
      (if d in ids && scope.boosts(ids[d], key) && names[i] in fids && Count(c, key, fids[names[i]], d) > 0 then [names[i]] else [])
  {
    hide Count;
    assert names[..i + 1][..i] == names[..i];
  }

  /** A field that is not indexed, or that the term does not occur in, adds nothing. */
  lemma TermSkip(results: Results, r: Results, c: Index, c': Index, ids: map<ShortId, Id>, fids: map<string, FieldId>,
                 names: seq<string>, i: nat, scope: Scope, key: string)
    requires i < |names| && Cleaned(c, c', {key}, FieldsOf(fids, names[..i]), ids.Keys)
    requires Reports(results, r, c, ids, fids, names[..i], scope, key)
    requires names[i] in fids ==> forall d :: Count(c, key, fids[names[i]], d) == 0
    ensures Cleaned(c, c', {key}, FieldsOf(fids, names[..i + 1]), ids.Keys)
    ensures Reports(results, r, c, ids, fids, names[..i + 1], scope, key)
  {
    hide Tidy, Count, MatchOf, Filled, Expected, FieldsOf;
    FieldsMore(fids, names, i);
    forall d ensures Expected(c, ids, fids, names[..i + 1], scope, key, d) == Expected(c, ids, fids, names[..i], scope, key, d) {
      PostedMore(c, ids, fids, names, i, scope, key, d);
    }
  }

  lemma FieldsMore(fids: map<string, FieldId>, names: seq<string>, i: nat)
    requires i < |names|
    ensures FieldsOf(fids, names[..i + 1]) == FieldsOf(fids, names[..i]) + (if names[i] in fids then {fids[names[i]]} else {})
  {
    assert names[..i + 1] == names[..i] + [names[i]];
    assert forall x :: x in names[..i + 1] <==> x in names[..i] || x == names[i];
  }

  /** Different names are different fields. */
  lemma NewField(fields: seq<string>, names: seq<string>, i: nat)
    requires DistinctNames(names) && i < |names| && names[i] in FieldIds(fields)
    ensures FieldIds(fields)[names[i]] !in FieldsOf(FieldIds(fields), names[..i])
  {
  }

  /** The dead documents of the field are lowered, */
  lemma CleanStep(c: Index, c1: Index, c2: Index, live: set<ShortId>, fs: set<FieldId>, f: FieldId, key: string, u: map<ShortId, nat>)
    requires f !in fs && Cleaned(c, c1, {key}, fs, live) && Lowered(c1, c2, key, {f}, u.Keys, live)
    requires forall d :: d in u <==> Count(c, key, f, d) > 0
    ensures Cleaned(c, c2, {key}, fs + {f}, live)
  {
    hide Tidy, Count;
  }

  /** and the live ones noted. */
  lemma ReportStep(results: Results, r: Results, r': Results, c: Index, ids: map<ShortId, Id>, fids: map<string, FieldId>,
                   names: seq<string>, i: nat, scope: Scope, key: string, u: map<ShortId, nat>)
    requires i < |names| && names[i] in fids && Reports(results, r, c, ids, fids, names[..i], scope, key)
    requires forall d :: d in u <==> Count(c, key, fids[names[i]], d) > 0
    requires NotedIn(r, r', key, names[i], u.Keys, ids, scope)
    ensures Reports(results, r', c, ids, fids, names[..i + 1], scope, key)
  {
    hide Count, MatchOf, Filled, Expected;
    forall d
      ensures Expected(c, ids, fids, names[..i + 1], scope, key, d) == Expected(c, ids, fids, names[..i], scope, key, d)
        + if d in u && d in ids && scope.boosts(ids[d], key) then [names[i]] else []
    {
      PostedMore(c, ids, fids, names, i, scope, key, d);
    }
  }

  lemma TermStep(results: Results, r: Results, r': Results, c: Index, c1: Index, c2: Index,
                 ids: map<ShortId, Id>, fids: map<string, FieldId>,
                 names: seq<string>, i: nat, scope: Scope, key: string, u: map<ShortId, nat>)
    requires i < |names| && names[i] in fids && fids[names[i]] !in FieldsOf(fids, names[..i])
    requires Cleaned(c, c1, {key}, FieldsOf(fids, names[..i]), ids.Keys) && Reports(results, r, c, ids, fids, names[..i], scope, key)
    requires forall d :: d in u <==> Count(c, key, fids[names[i]], d) > 0
    requires Lowered(c1, c2, key, {fids[names[i]]}, u.Keys, ids.Keys) && NotedIn(r, r', key, names[i], u.Keys, ids, scope)
    ensures Cleaned(c, c2, {key}, FieldsOf(fids, names[..i + 1]), ids.Keys)
    ensures Reports(results, r', c, ids, fids, names[..i + 1], scope, key)
  {
    hide *;
    FieldsMore(fids, names, i);
    CleanStep(c, c1, c2, ids.Keys, FieldsOf(fids, names[..i]), fids[names[i]], key, u);
    ReportStep(results, r, r', c, ids, fids, names, i, scope, key, u);
  }

  /** What the postings at hand say about the index. */
  lemma PostingIs(c: Index, key: string, p: Posting, f: FieldId)
    requires Tidy(c) && key in c && c[key] == p
    ensures f in p ==> forall d :: d in p[f] <==> Count(c, key, f, d) > 0
    ensures f !in p ==> forall d :: Count(c, key, f, d) == 0
  {
  }

  lemma CleanTidy(c: Index, c': Index, keys: set<string>, fs: set<FieldId>, live: set<ShortId>)
    requires Cleaned(c, c', keys, fs, live)
    ensures Tidy(c')
  {
  }

  /** `termResults`. */
  method TermResults(m: RadixMap<Posting>, ids: map<ShortId, Id>, ghost fields: seq<string>, fids: map<string, FieldId>,
                     key: string, p: Posting, names: seq<string>, scope: Scope, results: Results) returns (r: Results)
    requires m.Valid() && Tidy(m.Content()) && key in m.Content() && m.Content()[key] == p
    requires fids == FieldIds(fields) && DistinctNames(names)
    modifies m
    ensures m.Valid() && Cleaned(old(m.Content()), m.Content(), {key}, FieldsOf(fids, names), ids.Keys)
    ensures Undisturbed(old(m.store), old(m.tree), m.store, m.tree, key)
    ensures Steady(old(m.store), old(m.tree), m.store, m.tree)
    ensures Reports(results, r, old(m.Content()), ids, fids, names, scope, key)
  {
    hide *;
    ghost var c, store, tree := m.Content(), m.store, m.tree;
    Still(store, tree, key);
    SteadyStill(store, tree);
    HasTree(m);
    r := results;
    TermStart(r, c, ids, fids, scope, key);
    assert names[..0] == [];
    var i := 0;
    while i < |names|
      invariant i <= |names| && m.Valid()
      invariant Cleaned(c, m.Content(), {key}, FieldsOf(fids, names[..i]), ids.Keys)
      invariant Undisturbed(store, tree, m.store, m.tree, key) && Steady(store, tree, m.store, m.tree)
      invariant Reports(results, r, c, ids, fids, names[..i], scope, key)
    {
      var x := names[i];
      if x in fids && fids[x] in p {
        var f := fids[x];
        ghost var c1, store1, tree1, r1 := m.Content(), m.store, m.tree, r;
        HasTree(m);
        PostingIs(c, key, p, f);
        NewField(fields, names, i);
        CleanTidy(c, c1, {key}, FieldsOf(fids, names[..i]), ids.Keys);
        r := FieldResults(m, ids, key, x, f, p[f], scope, r);
        Onward(store, tree, store1, tree1, m.store, m.tree, key);
        SteadyOnward(store, tree, store1, tree1, m.store, m.tree);
        TermStep(results, r1, r, c, c1, m.Content(), ids, fids, names, i, scope, key, p[f]);
      } else {
        if x in fids { PostingIs(c, key, p, fids[x]); }
        TermSkip(results, r, c, m.Content(), ids, fids, names, i, scope, key);
      }
      i := i + 1;
    }
    assert names[..i] == names;
  }

  // ----- several terms -----

  /** The terms in `keys` have been looked at: reported from the index as it was, and cleaned. */
  ghost predicate Progress(c0: Index, c: Index, r: Results, ids: map<ShortId, Id>, fids: map<string, FieldId>,
                           names: seq<string>, scope: Scope, keys: set<string>) {
    && Tidy(c0) && Cleaned(c0, c, keys, FieldsOf(fids, names), ids.Keys) && Filled(r)
    && forall d, k :: MatchOf(r, d, k) == if k in keys then Expected(c0, ids, fids, names, scope, k, d) else []
  }

  /** A term whose counts are the same is the same. */
  lemma SameTerm(c: Index, c': Index, t: string)
    requires Tidy(c) && Tidy(c') && forall f, d :: Count(c, t, f, d) == Count(c', t, f, d)
    ensures (t in c <==> t in c') && (t in c ==> c[t] == c'[t])
  {
    hide TidyIn, CountIn;
    if t in c {
      var f, d := SomeCount(c[t]);
      assert Count(c, t, f, d) == Count(c', t, f, d);
    }
    if t in c' {
      var f, d := SomeCount(c'[t]);
      assert Count(c, t, f, d) == Count(c', t, f, d);
    }
    if t in c {
      forall f, d ensures CountIn(c[t], f, d) == CountIn(c'[t], f, d) {
        assert Count(c, t, f, d) == Count(c', t, f, d);
      }
      InnerEq(c[t], c'[t]);
    }
  }

  lemma Untouched(c0: Index, c: Index, r: Results, ids: map<ShortId, Id>, fids: map<string, FieldId>,
                  names: seq<string>, scope: Scope, keys: set<string>, t: string)
    requires Progress(c0, c, r, ids, fids, names, scope, keys) && t !in keys
    ensures Tidy(c) && (t in c0 <==> t in c) && (t in c0 ==> c0[t] == c[t])
    ensures forall d :: Expected(c, ids, fids, names, scope, t, d) == Expected(c0, ids, fids, names, scope, t, d)
  {
    hide Tidy, Count, MatchOf, Filled, Expected, FieldsOf;
    forall f, d ensures Count(c0, t, f, d) == Count(c, t, f, d) {
    }
    SameTerm(c0, c, t);
    forall d ensures Expected(c, ids, fids, names, scope, t, d) == Expected(c0, ids, fids, names, scope, t, d) {
      SameExpected(c, c0, ids, fids, names, scope, t, d);
    }
  }

  lemma {:induction false} SamePosted(c: Index, c': Index, fids: map<string, FieldId>, names: seq<string>, t: string, d: ShortId)
    requires forall f :: Count(c, t, f, d) == Count(c', t, f, d)
    ensures PostedFields(c, fids, names, t, d) == PostedFields(c', fids, names, t, d)
  {
    hide Count;
    if names != [] { SamePosted(c, c', fids, names[..|names| - 1], t, d); }
  }

  lemma SameExpected(c: Index, c': Index, ids: map<ShortId, Id>, fids: map<string, FieldId>, names: seq<string>,
                     scope: Scope, t: string, d: ShortId)
    requires forall f :: Count(c, t, f, d) == Count(c', t, f, d)
    ensures Expected(c, ids, fids, names, scope, t, d) == Expected(c', ids, fids, names, scope, t, d)
  {
    SamePosted(c, c', fids, names, t, d);
  }

  lemma ProgressStart(c: Index, ids: map<ShortId, Id>, fids: map<string, FieldId>, names: seq<string>, scope: Scope)
    requires Tidy(c)
    ensures Progress(c, c, map[], ids, fids, names, scope, {})
  {
    hide Tidy, Count, Expected, FieldsOf;
  }

  lemma ProgressStep(c0: Index, c: Index, c': Index, r: Results, r': Results, ids: map<ShortId, Id>, fids: map<string, FieldId>,
                     names: seq<string>, scope: Scope, keys: set<string>, key: string)
    requires Progress(c0, c, r, ids, fids, names, scope, keys) && key !in keys
    requires Cleaned(c, c', {key}, FieldsOf(fids, names), ids.Keys) && Reports(r, r', c, ids, fids, names, scope, key)
    ensures Progress(c0, c', r', ids, fids, names, scope, keys + {key})
  {
    hide Tidy, Count, MatchOf, Filled, Expected, FieldsOf;
    Untouched(c0, c, r, ids, fids, names, scope, keys, key);
  }

  /** A term that is not in the index has nothing to report. */
  lemma ProgressAbsent(c0: Index, c: Index, r: Results, ids: map<ShortId, Id>, fids: map<string, FieldId>,
                       names: seq<string>, scope: Scope, keys: set<string>, key: string)
    requires Progress(c0, c, r, ids, fids, names, scope, keys) && key !in keys && key !in c0
    ensures Progress(c0, c, r, ids, fids, names, scope, keys + {key})
  {
    hide Tidy, CountIn, MatchOf, Filled, Expected, FieldsOf;
    forall d ensures Expected(c0, ids, fids, names, scope, key, d) == [] {
      AbsentExpected(c0, ids, fids, names, scope, key, d);
    }
  }

  lemma {:induction false} AbsentPosted(c: Index, fids: map<string, FieldId>, names: seq<string>, key: string, d: ShortId)
    requires key !in c
    ensures PostedFields(c, fids, names, key, d) == []
  {
    if names != [] { AbsentPosted(c, fids, names[..|names| - 1], key, d); }
  }

  lemma AbsentExpected(c: Index, ids: map<ShortId, Id>, fids: map<string, FieldId>, names: seq<string>,
                       scope: Scope, key: string, d: ShortId)
    requires key !in c
    ensures Expected(c, ids, fids, names, scope, key, d) == []
  {
    AbsentPosted(c, fids, names, key, d);
  }

  /** The terms that start with `term`. Each is taken off the list of approximate matches. */
  method PrefixResults(m: RadixMap<Posting>, ids: map<ShortId, Id>, ghost fields: seq<string>, fids: map<string, FieldId>,
                       term: string, names: seq<string>, scope: Scope, hits0: Hits<Posting>, results: Results, ghost c0: Index)
    returns (r: Results, hits: Hits<Posting>, ghost keys: set<string>)
    requires m.Valid() && fids == FieldIds(fields) && DistinctNames(names)
    requires Progress(c0, m.Content(), results, ids, fids, names, scope, {term})
    modifies m
    ensures m.Valid() && Progress(c0, m.Content(), r, ids, fids, names, scope, keys)
    ensures forall k :: k in keys <==> k == term || (k in c0 && term <= k)
    ensures hits == hits0 - (keys - {term})
    ensures Steady(old(m.store), old(m.tree), m.store, m.tree)
  {
    hide *;
    HasTree(m);
    var it := AtPrefix(m, term);
    SteadyExtended(old(m.store), m.store, m.tree);
    ghost var c1, all := m.Content(), it.Future();
    ghost var i := 0;
    r, hits, keys := results, hits0, {term};
    assert all[..0] == [] && hits0 - ({term} - {term}) == hits0;
    NoKeys(all);
    while true
      invariant m.Valid() && it.base == m && it.Valid() && fresh(it)
      invariant i <= |all| && it.Future() == all[i..]
      invariant keys == KeysIn(all[..i]) + {term} && hits == hits0 - (keys - {term})
      invariant Progress(c0, m.Content(), r, ids, fids, names, scope, keys)
      invariant Steady(old(m.store), old(m.tree), m.store, m.tree)
      decreases |all| - i
    {
      var e := it.Next();
      if e == None {
        break;
      }
      var (key, p) := e.value;
      PrefixKey(c1, term, all, i);
      if |key| - |term| != 0 {
        hits := hits - {key};
        PrefixTouch(c0, c1, m.Content(), results, r, ids, fids, names, scope, term, keys, key);
        ghost var c2, r2, store2, tree2 := m.Content(), r, m.store, m.tree;
        HasTree(m);
        r := PrefixTerm(m, it, ids, fields, fids, key, p, names, scope, r, all, i);
        SteadyOnward(old(m.store), old(m.tree), store2, tree2, m.store, m.tree);
        ProgressStep(c0, c2, m.Content(), r2, r, ids, fids, names, scope, keys, key);
        DropOne(hits0, keys, term, key);
        keys := keys + {key};
      }
      i := i + 1;
    }
    assert all[..i] == all;
    PrefixAll(c0, c1, results, ids, fids, names, scope, term, all);
  }

  lemma DropOne(hits: Hits<Posting>, keys: set<string>, term: string, key: string)
    requires key != term
    ensures hits - (keys - {term}) - {key} == hits - (keys + {key} - {term})
  {
  }

  lemma PrefixKey(c1: Index, term: string, all: seq<(string, Posting)>, i: nat)
    requires ListsPrefix(c1, term, all) && i < |all|
    ensures var (k, p) := all[i];
      && DistinctKeys(all) && k in c1 && c1[k] == p && term <= k && (|k| == |term| <==> k == term)
      && k !in KeysIn(all[..i]) && KeysIn(all[..i + 1]) == KeysIn(all[..i]) + {k}
  {
    KeysMore(all, i);
    var k := all[i].0;
    if |k| == |term| { assert k[..|term|] == k; }
  }

  lemma PrefixTouch(c0: Index, c1: Index, c: Index, results: Results, r: Results, ids: map<ShortId, Id>, fids: map<string, FieldId>,
                    names: seq<string>, scope: Scope, term: string, keys: set<string>, key: string)
    requires Progress(c0, c1, results, ids, fids, names, scope, {term}) && Progress(c0, c, r, ids, fids, names, scope, keys)
    requires key in c1 && key != term && key !in keys
    ensures Tidy(c) && key in c && c[key] == c1[key]
  {
    hide *;
    Untouched(c0, c1, results, ids, fids, names, scope, {term}, key);
    Untouched(c0, c, r, ids, fids, names, scope, keys, key);
  }

  lemma PrefixAll(c0: Index, c1: Index, results: Results, ids: map<ShortId, Id>, fids: map<string, FieldId>,
                  names: seq<string>, scope: Scope, term: string, all: seq<(string, Posting)>)
    requires Progress(c0, c1, results, ids, fids, names, scope, {term}) && ListsPrefix(c1, term, all)
    ensures forall k :: k in KeysIn(all) + {term} <==> k == term || (k in c0 && term <= k)
  {
    hide Progress;
    forall k | k != term
      ensures k in c0 <==> k in c1
    {
      Untouched(c0, c1, results, ids, fids, names, scope, {term}, k);
    }
  }

  /** `termResults` for the term that an iterator has just yielded, which it survives. */
  method PrefixTerm(m: RadixMap<Posting>, it: RadixIterator<Posting>, ids: map<ShortId, Id>, ghost fields: seq<string>,
                    fids: map<string, FieldId>, key: string, p: Posting, names: seq<string>, scope: Scope, results: Results,
                    ghost all: seq<(string, Posting)>, ghost i: nat) returns (r: Results)
    requires m.Valid() && it.base == m && it.Valid() && Tidy(m.Content()) && key in m.Content() && m.Content()[key] == p
    requires fids == FieldIds(fields) && DistinctNames(names)
    requires DistinctKeys(all) && i < |all| && all[i].0 == key && it.Future() == all[i + 1..]
    modifies m
    ensures m.Valid() && it.Valid() && it.Future() == old(it.Future())
    ensures Cleaned(old(m.Content()), m.Content(), {key}, FieldsOf(fids, names), ids.Keys)
    ensures Steady(old(m.store), old(m.tree), m.store, m.tree)
    ensures Reports(results, r, old(m.Content()), ids, fids, names, scope, key)
  {
    hide *;
    ItReady(it);
    r := TermResults(m, ids, fields, fids, key, p, names, scope, results);
    Survives(it, old(m.store), old(m.tree), all, i);
  }

  /** The approximate matches; the one at distance zero has been dealt with. */
  method FuzzyResults(m: RadixMap<Posting>, ids: map<ShortId, Id>, ghost fields: seq<string>, fids: map<string, FieldId>,
                      names: seq<string>, scope: Scope, hits: Hits<Posting>, results: Results, ghost c0: Index, ghost keys0: set<string>)
    returns (r: Results, ghost keys: set<string>)
    requires m.Valid() && fids == FieldIds(fields) && DistinctNames(names)
    requires Progress(c0, m.Content(), results, ids, fids, names, scope, keys0)
    requires forall k :: k in hits && hits[k].1 != 0 ==> k !in keys0 && k in c0 && c0[k] == hits[k].0
    modifies m
    ensures m.Valid() && Progress(c0, m.Content(), r, ids, fids, names, scope, keys)
    ensures forall k :: k in keys <==> k in keys0 || (k in hits && hits[k].1 != 0)
    ensures Steady(old(m.store), old(m.tree), m.store, m.tree)
  {
    hide *;
    SteadyStill(m.store, m.tree);
    HasTree(m);
    r, keys := results, keys0;
    var ks := hits.Keys;
    while ks != {}
      invariant ks <= hits.Keys && m.Valid() && Progress(c0, m.Content(), r, ids, fids, names, scope, keys)
      invariant forall k :: k in keys <==> k in keys0 || (k in hits && k !in ks && hits[k].1 != 0)
      invariant Steady(old(m.store), old(m.tree), m.store, m.tree)
    {
      var key :| key in ks;
      var (p, distance) := hits[key];
      if distance != 0 {
        ghost var c, r1, store1, tree1 := m.Content(), r, m.store, m.tree;
        HasTree(m);
        Untouched(c0, c, r, ids, fids, names, scope, keys, key);
        r := TermResults(m, ids, fields, fids, key, p, names, scope, r);
        SteadyOnward(old(m.store), old(m.tree), store1, tree1, m.store, m.tree);
        ProgressStep(c0, c, m.Content(), r1, r, ids, fids, names, scope, keys, key);
        keys := keys + {key};
      }
      ks := ks - {key};
    }
  }

  // ----- one query -----

  /** The edit bound of a query; zero means that nothing approximate is looked up. */
  function MaxDistance(q: Query, maxFuzzy: nat): nat {
    match q.fuzzy
    case Strict => 0
    case Share(part) =>
      var k := (|q.term| as real * part + 0.5).Floor;
      if k <= maxFuzzy then k else maxFuzzy
    case Edits(k) => k
  }

  /** The terms a query stands for: itself, what starts with it, and what the approximate lookup reports at a distance. */
  ghost predicate Selects(q: Query, maxFuzzy: nat, key: string) {
    var k := MaxDistance(q, maxFuzzy);
    || key == q.term
    || (q.prefix && q.term <= key)
    || (k > 0 && Reported(q.term, k, key).Some? && Reported(q.term, k, key).value != 0)
  }

  /** What the bound of a query is to be: none, a share of its length rounded to the nearest whole number, halves upwards,
      but no more than `maxFuzzy`, or the number that it gives. */
  ghost predicate IsBound(q: Query, maxFuzzy: nat, k: nat) {
    match q.fuzzy
    case Strict => k == 0
    case Edits(n) => k == n
    case Share(part) =>
      var x := |q.term| as real * part;
      && k <= maxFuzzy
      && (k < maxFuzzy ==> k as real - 0.5 <= x < k as real + 0.5)
      && (k == maxFuzzy ==> x >= maxFuzzy as real - 0.5)
  }

  lemma BoundIs(q: Query, maxFuzzy: nat, k: nat)
    ensures IsBound(q, maxFuzzy, k) <==> k == MaxDistance(q, maxFuzzy)
  {
    if q.fuzzy.Share? {
      var x := |q.term| as real * q.fuzzy.part;
      var n := (x + 0.5).Floor;
      assert n as real - 0.5 <= x < n as real + 0.5;
    }
  }

  /** Where bytes are wide enough for its bound, a query stands for the terms within the bound; for the empty term the length
      of the query, modulo 256, counts as its distance. */
  lemma SelectsNear(q: Query, maxFuzzy: nat, k: nat, key: string)
    requires IsBound(q, maxFuzzy, k) && (k > 0 ==> FuzzyExact.Fits(|q.term|, k))
    ensures Selects(q, maxFuzzy, key) <==>
      || key == q.term
      || (q.prefix && q.term <= key)
      || (k > 0 && if key == "" then 0 < |q.term| % 256 <= k else Lev(key, q.term) <= k)
  {
    hide Lev, MaxDistance, Reported, IsBound;
    BoundIs(q, maxFuzzy, k);
    if k > 0 && key != q.term {
      if key == "" {
        FuzzyExact.EmptyKey(q.term, k);
      } else {
        FuzzyExact.FitsRight(q.term, k, key);
        if Lev(key, q.term) == 0 { FuzzyExact.ZeroDistance(key, q.term); }
      }
    }
  }

  /** The candidates: the term itself, what starts with it, and what is close to it. */
  ghost predicate Candidates(q: Query, c0: Index, hits: Hits<Posting>, keys: set<string>) {
    forall k :: k in keys <==> k == q.term || (q.prefix && k in c0 && q.term <= k) || (k in hits && hits[k].1 != 0)
  }

  ghost predicate Looked(q: Query, maxFuzzy: nat, c: Index, hits: Hits<Posting>) {
    var k := MaxDistance(q, maxFuzzy);
    if k == 0 then hits == map[]
    else Reporting(hits, c, q.term, k)
  }

  lemma CandidatesSelect(q: Query, maxFuzzy: nat, c0: Index, c1: Index, hits: Hits<Posting>, keys: set<string>, key: string)
    requires Looked(q, maxFuzzy, c1, hits) && Candidates(q, c0, hits, keys)
    requires key in c0 && (key != q.term ==> key in c1)
    ensures key in keys <==> Selects(q, maxFuzzy, key)
  {
    hide MaxDistance, Reported;
    var k := MaxDistance(q, maxFuzzy);
    assert key in keys <==> key == q.term || (q.prefix && q.term <= key) || (key in hits && hits[key].1 != 0);
    if k > 0 && key != q.term {
      assert key in hits <==> key in c1 && Reported(q.term, k, key).Some?;
    }
  }

  /** The fields to report for a document and a term. */
  ghost function Answer(o: Options, s: State, q: Query, scope: Scope, d: ShortId, key: string): seq<string> {
    if Selects(q, scope.maxFuzzy, key)
    then Expected(s.content, s.ids, FieldIds(o.fields), ObjectKeys(scope.fields), scope, key, d)
    else []
  }

  lemma AnswersFound(o: Options, s: State, c1: Index, c: Index, q: Query, scope: Scope, hits: Hits<Posting>,
                     r1: Results, r: Results, keys: set<string>)
    requires Looked(q, scope.maxFuzzy, c1, hits) && Candidates(q, s.content, hits, keys)
    requires Progress(s.content, c1, r1, s.ids, FieldIds(o.fields), ObjectKeys(scope.fields), scope, {q.term})
    requires Progress(s.content, c, r, s.ids, FieldIds(o.fields), ObjectKeys(scope.fields), scope, keys)
    ensures forall d, key :: MatchOf(r, d, key) == Answer(o, s, q, scope, d, key)
  {
    hide Tidy, Cleaned, Looked, Candidates, Selects, MatchOf, Expected, FieldIds, ObjectKeys, Filled;
    var fids, names := FieldIds(o.fields), ObjectKeys(scope.fields);
    forall d, key
      ensures MatchOf(r, d, key) == Answer(o, s, q, scope, d, key)
    {
      if key in s.content {
        if key != q.term { Untouched(s.content, c1, r1, s.ids, fids, names, scope, {q.term}, key); }
        CandidatesSelect(q, scope.maxFuzzy, s.content, c1, hits, keys, key);
      } else {
        AbsentExpected(s.content, s.ids, fids, names, scope, key, d);
      }
    }
  }

  /** The term itself. */
  method ExactResults(m: RadixMap<Posting>, ids: map<ShortId, Id>, ghost fields: seq<string>, fids: map<string, FieldId>,
                      term: string, names: seq<string>, scope: Scope) returns (r: Results)
    requires m.Valid() && Tidy(m.Content()) && fids == FieldIds(fields) && DistinctNames(names)
    modifies m
    ensures m.Valid() && Progress(old(m.Content()), m.Content(), r, ids, fids, names, scope, {term})
    ensures Steady(old(m.store), old(m.tree), m.store, m.tree)
  {
    hide *;
    SteadyStill(m.store, m.tree);
    ghost var c := m.Content();
    ProgressStart(c, ids, fids, names, scope);
    var p := m.Get(term);
    r := map[];
    if p.Some? {
      r := TermResults(m, ids, fields, fids, term, p.value, names, scope, r);
      ProgressStep(c, c, m.Content(), map[], r, ids, fids, names, scope, {}, term);
    } else {
      ProgressAbsent(c, c, r, ids, fids, names, scope, {}, term);
    }
    assert {} + {term} == {term};
  }

  /** What the approximate lookup says holds of the index before the query, too, and is left for the
      last step except where a term was found exactly or by prefix. */
  lemma HitsLeft(q: Query, c0: Index, c1: Index, r1: Results, ids: map<ShortId, Id>, fids: map<string, FieldId>, names: seq<string>,
                 scope: Scope, found: Hits<Posting>, hits: Hits<Posting>, keys: set<string>)
    requires Progress(c0, c1, r1, ids, fids, names, scope, {q.term})
    requires forall x :: x in found ==> x in c1 && found[x].0 == c1[x] && (x == q.term ==> found[x].1 == 0)
    requires hits == found - (keys - {q.term})
    ensures forall k :: k in hits && hits[k].1 != 0 ==> k !in keys && k in c0 && c0[k] == hits[k].0
  {
    hide Progress;
    forall k | k in hits && hits[k].1 != 0
      ensures k !in keys && k in c0 && c0[k] == hits[k].0
    {
      Untouched(c0, c1, r1, ids, fids, names, scope, {q.term}, k);
    }
  }

  lemma FoundIn(q: Query, c0: Index, c1: Index, r1: Results, ids: map<ShortId, Id>, fids: map<string, FieldId>, names: seq<string>,
                scope: Scope, found: Hits<Posting>)
    requires Progress(c0, c1, r1, ids, fids, names, scope, {q.term}) && forall x :: x in found ==> x in c1
    ensures forall x :: x in found ==> x in c0 || x == q.term
  {
    hide Progress;
    forall x | x in found && x != q.term ensures x in c0 {
      Untouched(c0, c1, r1, ids, fids, names, scope, {q.term}, x);
    }
  }

  /** What the approximate lookup found, if it was asked. */
  lemma LookedFor(q: Query, maxFuzzy: nat, c: Index, hits: Hits<Posting>)
    requires var k := MaxDistance(q, maxFuzzy);
      if k == 0 then hits == map[] else Reporting(hits, c, q.term, k)
    ensures Looked(q, maxFuzzy, c, hits)
    ensures forall x :: x in hits ==> x in c && hits[x].0 == c[x] && (x == q.term ==> hits[x].1 == 0)
  {
    hide MaxDistance, Reported;
    FuzzyExact.QueryReported(q.term, MaxDistance(q, maxFuzzy));
  }

  lemma AllCandidates(q: Query, c0: Index, found: Hits<Posting>, hits: Hits<Posting>, keys1: set<string>, keys: set<string>)
    requires forall k :: k in keys1 <==> k == q.term || (q.prefix && k in c0 && q.term <= k)
    requires hits == found - (keys1 - {q.term}) && (q.term in found ==> found[q.term].1 == 0)
    requires forall k :: k in keys <==> k in keys1 || (k in hits && hits[k].1 != 0)
    requires forall k :: k in found && q.prefix && q.term <= k ==> k in c0 || k == q.term
    ensures Candidates(q, c0, found, keys)
  {
  }

  lemma ProgressIs(c0: Index, c: Index, r: Results, ids: map<ShortId, Id>, fids: map<string, FieldId>,
                   names: seq<string>, scope: Scope, keys: set<string>)
    requires Progress(c0, c, r, ids, fids, names, scope, keys)
    ensures Cleaned(c0, c, keys, FieldsOf(fids, names), ids.Keys) && Filled(r)
  {
  }

  /** Cleaning up only loses postings of dead documents. */
  lemma CleanLoses(s: State, c: Index, keys: set<string>, fs: set<FieldId>)
    requires Cleaned(s.content, c, keys, fs, s.ids.Keys)
    ensures Loses(s, s.(content := c))
  {
    hide Tidy, Count;
  }

  /** `executeQuerySpec`. */
  method ExecuteQuerySpec(m: MiniSearch, q: Query, scope: Scope) returns (r: Results, ghost keys: set<string>)
    requires m.Valid() && m.index.Valid()
    modifies m.index
    ensures m.Valid() && m.index.Valid() && m.Value() == old(m.Value()).(content := m.index.Content())
    ensures Filled(r)
    ensures forall d, key :: MatchOf(r, d, key) == Answer(m.options, old(m.Value()), q, scope, d, key)
    ensures Cleaned(old(m.index.Content()), m.index.Content(), keys, FieldsOf(m.fieldIds, ObjectKeys(scope.fields)), m.documentIds.Keys)
    ensures Loses(old(m.Value()), m.Value())
    ensures Steady(old(m.index.store), old(m.index.tree), m.index.store, m.index.tree)
  {
    hide *;
    HasTree(m.index);
    m.Parts();
    m.Fields();
    ghost var s := m.Value();
    var ids, fids, names := m.documentIds, m.fieldIds, ObjectKeys(scope.fields);
    ObjectKeysAre(scope.fields);
    StateTidy(s);
    r := ExactResults(m.index, ids, m.options.fields, fids, q.term, names, scope);
    ghost var c1, r1, store1, tree1 := m.index.Content(), r, m.index.store, m.index.tree;
    HasTree(m.index);
    var k := MaxDistance(q, scope.maxFuzzy);
    var hits: Hits<Posting> := map[];
    if k > 0 { hits := FuzzyGet(m.index, q.term, k); }
    ghost var found := hits;
    LookedFor(q, scope.maxFuzzy, c1, found);
    keys := {q.term};
    if q.prefix {
      r, hits, keys := PrefixResults(m.index, ids, m.options.fields, fids, q.term, names, scope, hits, r, s.content);
      SteadyOnward(old(m.index.store), old(m.index.tree), store1, tree1, m.index.store, m.index.tree);
    }
    HitsLeft(q, s.content, c1, r1, ids, fids, names, scope, found, hits, keys);
    ghost var keys1, store2, tree2 := keys, m.index.store, m.index.tree;
    HasTree(m.index);
    r, keys := FuzzyResults(m.index, ids, m.options.fields, fids, names, scope, hits, r, s.content, keys);
    SteadyOnward(old(m.index.store), old(m.index.tree), store2, tree2, m.index.store, m.index.tree);
    ProgressIs(s.content, m.index.Content(), r, ids, fids, names, scope, keys);
    FoundIn(q, s.content, c1, r1, ids, fids, names, scope, found);
    AllCandidates(q, s.content, found, hits, keys1, keys);
    AnswersFound(m.options, s, c1, m.index.Content(), q, scope, found, r1, r, keys);
    m.Fields();
    CleanLoses(s, m.index.Content(), keys, FieldsOf(fids, names));
    LosesCoherent(s, s.(content := m.index.Content()));
    m.Whole();
  }
}

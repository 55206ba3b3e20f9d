/** What a query means, and how the answers to several are combined. */
module SearchCombine {
  import opened JsMaps
  import opened Postings
  import opened SearchDocs
  import opened SearchState
  import opened SearchIndex
  import opened SearchQuery

  // ----- the meaning of an answer -----

  lemma {:induction false} PostedAre(c: Index, fids: map<string, FieldId>, names: seq<string>, key: string, d: ShortId, x: string)
    ensures x in PostedFields(c, fids, names, key, d) <==> x in names && x in fids && Count(c, key, fids[x], d) > 0
  {
    hide Count;
    if names != [] {
      var l := |names| - 1;
      PostedAre(c, fids, names[..l], key, d, x);
      assert names == names[..l] + [names[l]];
    }
  }

  /** Document `d` is live and weighs something, the query selects the term and the field, and the
      term occurs in that field of the document. */
  ghost predicate Occurs(o: Options, s: State, q: Query, scope: Scope, d: ShortId, key: string, x: string) {
    && d in s.docs && d in s.ids && scope.boosts(s.ids[d], key) && Selects(q, scope.maxFuzzy, key)
    && x in scope.fields && x in o.fields && TermCount(o, s.docs[d], x, key) > 0
  }

  lemma AnswerMeans(o: Options, s: State, q: Query, scope: Scope, d: ShortId, key: string, x: string)
    requires Coherent(s) && Faithful(o, s)
    ensures x in Answer(o, s, q, scope, d, key) <==> Occurs(o, s, q, scope, d, key, x)
  {
    hide Tidy, Count, Selects, ObjectKeys, PostedFields, Occurrences, FieldIds, TermCount;
    ObjectKeysAre(scope.fields);
    PostedAre(s.content, FieldIds(o.fields), ObjectKeys(scope.fields), key, d, x);
    if d in s.docs && x in o.fields { FieldOccurs(o, s.docs[d], x, key); }
  }

  /** A term is counted for a field exactly if it occurs in its text. */
  lemma FieldOccurs(o: Options, doc: Doc, x: string, key: string)
    requires x in o.fields
    ensures Occurrences(o, doc, FieldIds(o.fields)[x], key) > 0 <==> TermCount(o, doc, x, key) > 0
  {
    hide Occurrences, TermCount, FieldIds;
    var f := FieldIds(o.fields)[x];
    OccurrencesAre(o, doc, f, key);
    LastPositions(o.fields, x);
    assert x in multiset(o.fields);
    OnlyIfBoth(multiset(o.fields)[x], TermCount(o, doc, x, key));
  }

  lemma OnlyIfBoth(n: nat, m: nat)
    requires n > 0
    ensures n * m > 0 <==> m > 0
  {
  }

  /** The query has something to say about the document. */
  ghost predicate Answers(o: Options, s: State, q: Query, scope: Scope, d: ShortId) {
    exists key :: Answer(o, s, q, scope, d, key) != []
  }

  lemma IdsAre(o: Options, s: State, q: Query, scope: Scope, r: Results, d: ShortId)
    requires Filled(r) && forall d, key :: MatchOf(r, d, key) == Answer(o, s, q, scope, d, key)
    ensures d in r <==> Answers(o, s, q, scope, d)
  {
    hide Answer;
    if d in r {
      assert r[d].Keys != {};
      var key :| key in r[d].Keys;
      assert MatchOf(r, d, key) != [];
    }
    if Answers(o, s, q, scope, d) {
      var key :| Answer(o, s, q, scope, d, key) != [];
      assert MatchOf(r, d, key) != [];
    }
  }

  /** In an index kept by honest operations, a document is an answer exactly if the text it was
      added with has an occurrence that the query asks for. */
  lemma AnswersMeans(o: Options, s: State, q: Query, scope: Scope, d: ShortId)
    requires Coherent(s) && Faithful(o, s)
    ensures Answers(o, s, q, scope, d) <==> exists key, x :: Occurs(o, s, q, scope, d, key, x)
  {
    hide Coherent, Faithful, Answer, Occurs;
    if Answers(o, s, q, scope, d) {
      var key :| Answer(o, s, q, scope, d, key) != [];
      var x := Answer(o, s, q, scope, d, key)[0];
      AnswerMeans(o, s, q, scope, d, key, x);
    }
    if key, x :| Occurs(o, s, q, scope, d, key, x) {
      AnswerMeans(o, s, q, scope, d, key, x);
      assert Answer(o, s, q, scope, d, key) != [];
    }
  }

  // ----- combining -----

  datatype Operator = Or | And | AndNot

  /** `or`: the second result is merged into the first. */
  method MergeOr(t: Results, e: Results) returns (r: Results)
    ensures r.Keys == t.Keys + e.Keys
    ensures forall d :: d in r ==> r[d] == if d !in t then e[d] else if d !in e then t[d] else t[d] + e[d]
  {
    r := t;
    var ds := e.Keys;
    while ds != {}
      invariant ds <= e.Keys && r.Keys == t.Keys + (e.Keys - ds)
      invariant forall d :: d in r ==> r[d] == if d !in t then e[d] else if d !in e || d in ds then t[d] else t[d] + e[d]
    {
      var d :| d in ds;
      r := r[d := if d in r then r[d] + e[d] else e[d]];
      ds := ds - {d};
    }
  }

  /** `and`. */
  method MergeAnd(t: Results, e: Results) returns (r: Results)
    ensures r.Keys == t.Keys * e.Keys
    ensures forall d :: d in r ==> r[d] == t[d] + e[d]
  {
    r := map[];
    var ds := e.Keys;
    while ds != {}
      invariant ds <= e.Keys && r.Keys == t.Keys * (e.Keys - ds)
      invariant forall d :: d in r ==> r[d] == t[d] + e[d]
    {
      var d :| d in ds;
      if d in t { r := r[d := t[d] + e[d]]; }
      ds := ds - {d};
    }
  }

  /** `and_not`. */
  method MergeAndNot(t: Results, e: Results) returns (r: Results)
    ensures r == t - e.Keys
  {
    r := t;
    var ds := e.Keys;
    while ds != {}
      invariant ds <= e.Keys && r == t - (e.Keys - ds)
    {
      var d :| d in ds;
      DropAnother(t, e.Keys - ds, d);
      r := r - {d};
      ds := ds - {d};
      assert e.Keys - (ds + {d}) + {d} == e.Keys - ds;
    }
    assert e.Keys - ds == e.Keys;
  }

  lemma DropAnother(t: Results, gone: set<ShortId>, d: ShortId)
    ensures t - gone - {d} == t - (gone + {d})
  {
  }

  /** Union, intersection, or the first without the rest. */
  ghost predicate Combines(op: Operator, rs: seq<Results>, n: nat, d: ShortId)
    requires 0 < n <= |rs|
  {
    match op
    case Or => exists i :: 0 <= i < n && d in rs[i]
    case And => forall i :: 0 <= i < n ==> d in rs[i]
    case AndNot => d in rs[0] && forall i :: 0 < i < n ==> d !in rs[i]
  }

  lemma CombinesMore(op: Operator, rs: seq<Results>, n: nat, d: ShortId)
    requires 0 < n < |rs|
    ensures Combines(op, rs, n + 1, d) <==> match op
      case Or => Combines(op, rs, n, d) || d in rs[n]
      case And => Combines(op, rs, n, d) && d in rs[n]
      case AndNot => Combines(op, rs, n, d) && d !in rs[n]
  {
  }

  /** Result `i` is the last of the first `n` that has the term for the document. */
  ghost predicate LastWith(rs: seq<Results>, n: nat, d: ShortId, key: string, i: nat)
    requires n <= |rs|
  {
    i < n && d in rs[i] && key in rs[i][d] && forall j :: i < j < n ==> d in rs[j] ==> key !in rs[j][d]
  }

  /** The record of a document has exactly the terms of all its records, each with the fields of the last of them. */
  ghost predicate Gathers(rs: seq<Results>, n: nat, d: ShortId, record: map<string, seq<string>>)
    requires n <= |rs|
  {
    && (forall key :: key in record ==> exists i: nat :: LastWith(rs, n, d, key, i))
    && (forall key, i: nat :: LastWith(rs, n, d, key, i) ==> key in record && record[key] == rs[i][d][key])
  }

  /** What is kept of a document: all its records together, or the first alone. */
  ghost predicate Keeps(op: Operator, rs: seq<Results>, n: nat, d: ShortId, record: map<string, seq<string>>)
    requires 0 < n <= |rs|
  {
    if op.AndNot? then d in rs[0] && record == rs[0][d] else Gathers(rs, n, d, record)
  }

  lemma GathersOne(rs: seq<Results>, d: ShortId)
    requires rs != [] && d in rs[0]
    ensures Gathers(rs, 1, d, rs[0][d])
  {
    forall key | key in rs[0][d] ensures exists i: nat :: LastWith(rs, 1, d, key, i) {
      assert LastWith(rs, 1, d, key, 0);
    }
  }

  /** One more result that has the document: its record wins. */
  lemma GathersMore(rs: seq<Results>, n: nat, d: ShortId, record: map<string, seq<string>>)
    requires n < |rs| && Gathers(rs, n, d, record) && d in rs[n]
    ensures Gathers(rs, n + 1, d, record + rs[n][d])
  {
    var m := n + 1;
    var more := record + rs[n][d];
    forall key | key in more ensures exists i: nat :: LastWith(rs, m, d, key, i) {
      if key in rs[n][d] {
        assert LastWith(rs, m, d, key, n);
      } else {
        var i: nat :| LastWith(rs, n, d, key, i);
        assert LastWith(rs, m, d, key, i);
      }
    }
    forall key, i: nat | LastWith(rs, m, d, key, i) ensures key in more && more[key] == rs[i][d][key] {
      if i < n { assert LastWith(rs, n, d, key, i); }
    }
  }

  /** A result without the document changes nothing for it. */
  lemma GathersSame(rs: seq<Results>, n: nat, d: ShortId, record: map<string, seq<string>>)
    requires n < |rs| && Gathers(rs, n, d, record) && d !in rs[n]
    ensures Gathers(rs, n + 1, d, record)
  {
    var m := n + 1;
    forall key | key in record ensures exists i: nat :: LastWith(rs, m, d, key, i) {
      var i: nat :| LastWith(rs, n, d, key, i);
      assert LastWith(rs, m, d, key, i);
    }
    forall key, i: nat | LastWith(rs, m, d, key, i) ensures key in record && record[key] == rs[i][d][key] {
      assert LastWith(rs, n, d, key, i);
    }
  }

  /** The first result with the document. */
  lemma GathersFirst(rs: seq<Results>, n: nat, d: ShortId)
    requires n < |rs| && d in rs[n] && forall i :: 0 <= i < n ==> d !in rs[i]
    ensures Gathers(rs, n + 1, d, rs[n][d])
  {
    var m := n + 1;
    forall key | key in rs[n][d] ensures exists i: nat :: LastWith(rs, m, d, key, i) {
      assert LastWith(rs, m, d, key, n);
    }
    forall key, i: nat | LastWith(rs, m, d, key, i) ensures i == n {
    }
  }

  /** What has been combined so far. */
  ghost predicate Combined(op: Operator, rs: seq<Results>, n: nat, t: Results)
    requires 0 < n <= |rs|
  {
    && (forall d :: d in t <==> Combines(op, rs, n, d))
    && (forall d :: d in t ==> Keeps(op, rs, n, d, t[d]))
  }

  lemma CombinedOne(op: Operator, rs: seq<Results>)
    requires rs != []
    ensures Combined(op, rs, 1, rs[0])
  {
    hide Gathers;
    forall d | d in rs[0] ensures Keeps(op, rs, 1, d, rs[0][d]) { GathersOne(rs, d); }
  }

  lemma CombinedOr(rs: seq<Results>, n: nat, t: Results, r: Results)
    requires 0 < n < |rs| && Combined(Or, rs, n, t) && r.Keys == t.Keys + rs[n].Keys
    requires forall d :: d in r ==> r[d] == if d !in t then rs[n][d] else if d !in rs[n] then t[d] else t[d] + rs[n][d]
    ensures Combined(Or, rs, n + 1, r)
  {
    hide Gathers;
    forall d ensures d in r <==> Combines(Or, rs, n + 1, d) { CombinesMore(Or, rs, n, d); }
    forall d | d in r ensures Keeps(Or, rs, n + 1, d, r[d]) {
      if d !in t {
        assert !Combines(Or, rs, n, d);
        GathersFirst(rs, n, d);
      } else {
        assert Keeps(Or, rs, n, d, t[d]);
        if d in rs[n] { GathersMore(rs, n, d, t[d]); } else { GathersSame(rs, n, d, t[d]); }
      }
    }
  }

  lemma CombinedAnd(rs: seq<Results>, n: nat, t: Results, r: Results)
    requires 0 < n < |rs| && Combined(And, rs, n, t) && r.Keys == t.Keys * rs[n].Keys
    requires forall d :: d in r ==> r[d] == t[d] + rs[n][d]
    ensures Combined(And, rs, n + 1, r)
  {
    hide Gathers;
    forall d ensures d in r <==> Combines(And, rs, n + 1, d) { CombinesMore(And, rs, n, d); }
    forall d | d in r ensures Keeps(And, rs, n + 1, d, r[d]) {
      assert Keeps(And, rs, n, d, t[d]);
      GathersMore(rs, n, d, t[d]);
    }
  }

  lemma CombinedAndNot(rs: seq<Results>, n: nat, t: Results)
    requires 0 < n < |rs| && Combined(AndNot, rs, n, t)
    ensures Combined(AndNot, rs, n + 1, t - rs[n].Keys)
  {
    var r := t - rs[n].Keys;
    forall d ensures d in r <==> Combines(AndNot, rs, n + 1, d) { CombinesMore(AndNot, rs, n, d); }
    forall d | d in r ensures Keeps(AndNot, rs, n + 1, d, r[d]) {
      assert Keeps(AndNot, rs, n, d, t[d]);
    }
  }

  /** `combineResults`; `None` is the error for an operator that does not exist. */
  method CombineResults(rs: seq<Results>, op: Option<Operator>) returns (r: Option<Results>)
    ensures rs == [] ==> r == Some(map[])
    ensures rs != [] ==> (r.Some? <==> op.Some?)
    ensures rs != [] && op.Some? ==> forall d :: d in r.value <==> Combines(op.value, rs, |rs|, d)
    ensures rs != [] && op.Some? ==> forall d :: d in r.value ==> Keeps(op.value, rs, |rs|, d, r.value[d])
    ensures |rs| == 1 && op.Some? ==> r == Some(rs[0])
  {
    hide Combines, Keeps;
    if |rs| == 0 { return Some(map[]); }
    if op.None? { return None; }
    var t := rs[0];
    var i := 1;
    CombinedOne(op.value, rs);
    while i < |rs|
      invariant 1 <= i <= |rs| && Combined(op.value, rs, i, t)
      invariant i == 1 ==> t == rs[0]
    {
      ghost var t0 := t;
      match op.value {
        case Or =>
          t := MergeOr(t, rs[i]);
          CombinedOr(rs, i, t0, t);
        case And =>
          t := MergeAnd(t, rs[i]);
          CombinedAnd(rs, i, t0, t);
        case AndNot =>
          t := MergeAndNot(t, rs[i]);
          CombinedAndNot(rs, i, t0);
      }
      i := i + 1;
    }
    return Some(t);
  }

  // ----- several queries -----

  ghost predicate CombinesAnswers(op: Operator, o: Options, s: State, qs: seq<Query>, scope: Scope, d: ShortId)
    requires qs != []
  {
    match op
    case Or => exists i :: 0 <= i < |qs| && Answers(o, s, qs[i], scope, d)
    case And => forall i :: 0 <= i < |qs| ==> Answers(o, s, qs[i], scope, d)
    case AndNot => Answers(o, s, qs[0], scope, d) && forall i :: 0 < i < |qs| ==> !Answers(o, s, qs[i], scope, d)
  }

  lemma LiveAnswer(o: Options, s: State, c: Index, q: Query, scope: Scope, d: ShortId, key: string)
    requires LiveSame(s, c)
    ensures Answer(o, s.(content := c), q, scope, d, key) == Answer(o, s, q, scope, d, key)
  {
    hide Tidy, Count, Selects, FieldIds, ObjectKeys, PostedFields;
    if d in s.ids {
      SamePosted(c, s.content, FieldIds(o.fields), ObjectKeys(scope.fields), key, d);
    }
  }

  /** One result, in full: for every document and term the fields of the answer. */
  ghost predicate Reported(o: Options, s: State, q: Query, scope: Scope, r: Results) {
    Filled(r) && forall d, key :: MatchOf(r, d, key) == Answer(o, s, q, scope, d, key)
  }

  /** What one query reports from an index that earlier queries have cleaned is what it would have reported at first. */
  lemma AnsweredAtFirst(o: Options, s: State, c: Index, q: Query, scope: Scope, r: Results)
    requires LiveSame(s, c) && Filled(r)
    requires forall d, key :: MatchOf(r, d, key) == Answer(o, s.(content := c), q, scope, d, key)
    ensures Reported(o, s, q, scope, r) && forall d :: d in r <==> Answers(o, s, q, scope, d)
  {
    hide LiveSame, Filled, Answer, MatchOf;
    forall d, key ensures MatchOf(r, d, key) == Answer(o, s, q, scope, d, key) {
      LiveAnswer(o, s, c, q, scope, d, key);
    }
    forall d ensures d in r <==> Answers(o, s, q, scope, d) {
      IdsAre(o, s, q, scope, r, d);
    }
  }

  /** `executeQuery` for a list of processed query terms: each is looked up, then the results are combined. */
  method ExecuteQuery(m: MiniSearch, qs: seq<Query>, scope: Scope, op: Option<Operator>) returns (r: Option<Results>)
    requires m.Valid() && m.index.Valid()
    modifies m.index
    ensures m.Valid() && m.index.Valid() && m.Value() == old(m.Value()).(content := m.index.Content())
    ensures Loses(old(m.Value()), m.Value())
    ensures Steady(old(m.index.store), old(m.index.tree), m.index.store, m.index.tree)
    ensures qs == [] ==> r == Some(map[])
    ensures qs != [] ==> (r.Some? <==> op.Some?)
    ensures qs != [] && op.Some? ==>
      forall d :: d in r.value <==> CombinesAnswers(op.value, m.options, old(m.Value()), qs, scope, d)
    ensures qs != [] && op.Some? ==>
      Filled(r.value) && forall d :: d in r.value ==> Matches(op.value, m.options, old(m.Value()), qs, scope, r.value, d)
  {
    hide *;
    SteadyStill(m.index.store, m.index.tree);
    HasTree(m.index);
    m.Parts();
    m.Fields();
    ghost var s := m.Value();
    LosesNothing(s);
    var rs: seq<Results> := [];
    var i := 0;
    while i < |qs|
      invariant i <= |qs| && |rs| == i && m.Valid() && m.index.Valid() && m.index == old(m.index)
      invariant m.Value() == s.(content := m.index.Content()) && Loses(s, m.Value())
      invariant Steady(old(m.index.store), old(m.index.tree), m.index.store, m.index.tree)
      invariant forall j :: 0 <= j < i ==> forall d :: d in rs[j] <==> Answers(m.options, s, qs[j], scope, d)
      invariant forall j :: 0 <= j < i ==> Reported(m.options, s, qs[j], scope, rs[j])
    {
      var q := qs[i];
      ghost var s1, c, store, tree := m.Value(), m.index.Content(), m.index.store, m.index.tree;
      m.Fields();
      HasTree(m.index);
      var result, keys := ExecuteQuerySpec(m, q, scope);
      LosesMore(s, s1, m.Value());
      SteadyOnward(old(m.index.store), old(m.index.tree), store, tree, m.index.store, m.index.tree);
      SameLive(s, s1);
      AnsweredAtFirst(m.options, s, c, q, scope, result);
      rs := rs + [result];
      i := i + 1;
    }
    r := CombineResults(rs, op);
    if qs != [] && op.Some? {
      forall d ensures d in r.value <==> CombinesAnswers(op.value, m.options, s, qs, scope, d) {
        CombinedAnswers(op.value, m.options, s, qs, scope, rs, d);
      }
      forall d | d in r.value ensures GoodRecord(r.value[d]) && Matches(op.value, m.options, s, qs, scope, r.value, d) {
        CombinedMatches(op.value, m.options, s, qs, scope, rs, r.value, d);
      }
      AllGood(r.value);
    }
  }

  lemma SameLive(s: State, s': State)
    requires Loses(s, s')
    ensures LiveSame(s, s'.content)
  {
  }

  lemma CombinedAnswers(op: Operator, o: Options, s: State, qs: seq<Query>, scope: Scope, rs: seq<Results>, d: ShortId)
    requires qs != [] && |rs| == |qs|
    requires forall j :: 0 <= j < |qs| ==> (d in rs[j] <==> Answers(o, s, qs[j], scope, d))
    ensures Combines(op, rs, |rs|, d) <==> CombinesAnswers(op, o, s, qs, scope, d)
  {
    hide Answers;
  }

  /** What a combined result says of a document: for a term that some query selects, the fields of that query's answer, and
      nothing for other terms; where the other queries only exclude, the answer to the first. */
  ghost predicate Matches(op: Operator, o: Options, s: State, qs: seq<Query>, scope: Scope, r: Results, d: ShortId)
    requires qs != []
  {
    if op.AndNot? then forall key :: MatchOf(r, d, key) == Answer(o, s, qs[0], scope, d, key)
    else
      && (forall key, i :: 0 <= i < |qs| && Selects(qs[i], scope.maxFuzzy, key) ==>
            MatchOf(r, d, key) == Answer(o, s, qs[i], scope, d, key))
      && (forall key :: (forall i :: 0 <= i < |qs| ==> !Selects(qs[i], scope.maxFuzzy, key)) ==> MatchOf(r, d, key) == [])
  }

  ghost predicate GoodRecord(record: map<string, seq<string>>) {
    record != map[] && forall key :: key in record ==> record[key] != []
  }

  lemma AllGood(r: Results)
    requires forall d :: d in r ==> GoodRecord(r[d])
    ensures Filled(r)
  {
  }

  lemma FilledAt(r: Results, d: ShortId)
    requires Filled(r) && d in r
    ensures GoodRecord(r[d])
  {
  }

  /** Some result has the term, so one is the last. */
  lemma LastThere(rs: seq<Results>, n: nat, d: ShortId, key: string, i: nat) returns (j: nat)
    requires i < n <= |rs| && d in rs[i] && key in rs[i][d]
    ensures LastWith(rs, n, d, key, j)
  {
    if d in rs[n - 1] && key in rs[n - 1][d] {
      j := n - 1;
    } else {
      j := LastThere(rs, n - 1, d, key, i);
    }
  }

  /** The answers of two queries to the same term are the same, if both select it. */
  lemma SameAnswer(o: Options, s: State, q: Query, q': Query, scope: Scope, d: ShortId, key: string)
    requires Answer(o, s, q, scope, d, key) != []
    ensures Selects(q, scope.maxFuzzy, key)
    ensures Selects(q', scope.maxFuzzy, key) ==> Answer(o, s, q', scope, d, key) == Answer(o, s, q, scope, d, key)
  {
    hide Selects, Expected;
  }

  lemma CombinedMatches(op: Operator, o: Options, s: State, qs: seq<Query>, scope: Scope, rs: seq<Results>, r: Results, d: ShortId)
    requires qs != [] && |rs| == |qs| && forall j :: 0 <= j < |qs| ==> Reported(o, s, qs[j], scope, rs[j])
    requires d in r && Keeps(op, rs, |rs|, d, r[d]) && Combines(op, rs, |rs|, d)
    ensures GoodRecord(r[d]) && Matches(op, o, s, qs, scope, r, d)
  {
    hide Answer, Selects, Gathers, GoodRecord, LastWith;
    assert Reported(o, s, qs[0], scope, rs[0]);
    if op.AndNot? {
      FilledAt(rs[0], d);
      forall key ensures MatchOf(r, d, key) == Answer(o, s, qs[0], scope, d, key) {
        assert MatchOf(rs[0], d, key) == Answer(o, s, qs[0], scope, d, key);
      }
    } else {
      var i := if op.And? then 0 else SomeWith(rs, d);
      assert Reported(o, s, qs[i], scope, rs[i]);
      FilledAt(rs[i], d);
      GatheredGood(o, s, qs, scope, rs, d, r[d], i);
      forall key, i | 0 <= i < |qs| && Selects(qs[i], scope.maxFuzzy, key)
        ensures MatchOf(r, d, key) == Answer(o, s, qs[i], scope, d, key)
      {
        GatheredMatch(o, s, qs, scope, rs, d, r[d], key, i);
      }
      forall key | forall i :: 0 <= i < |qs| ==> !Selects(qs[i], scope.maxFuzzy, key)
        ensures MatchOf(r, d, key) == []
      {
        NoMatch(o, s, qs, scope, rs, d, r[d], key);
      }
    }
  }

  ghost function SomeWith(rs: seq<Results>, d: ShortId): (i: nat)
    requires exists i :: 0 <= i < |rs| && d in rs[i]
    ensures i < |rs| && d in rs[i]
  {
    var i :| 0 <= i < |rs| && d in rs[i];
    i
  }

  lemma LastIs(rs: seq<Results>, n: nat, d: ShortId, key: string, i: nat)
    requires n <= |rs| && LastWith(rs, n, d, key, i)
    ensures i < n && d in rs[i] && key in rs[i][d] && rs[i][d][key] == MatchOf(rs[i], d, key)
  {
  }

  lemma GatheredGood(o: Options, s: State, qs: seq<Query>, scope: Scope, rs: seq<Results>, d: ShortId,
                     record: map<string, seq<string>>, i: nat)
    requires |rs| == |qs| && forall j :: 0 <= j < |qs| ==> Reported(o, s, qs[j], scope, rs[j])
    requires Gathers(rs, |rs|, d, record) && i < |rs| && d in rs[i] && GoodRecord(rs[i][d])
    ensures GoodRecord(record)
  {
    hide Answer, LastWith, MatchOf;
    assert rs[i][d].Keys != {};
    var key :| key in rs[i][d].Keys;
    var j := LastThere(rs, |rs|, d, key, i);
    assert key in record;
    forall key | key in record ensures record[key] != [] {
      var j: nat :| LastWith(rs, |rs|, d, key, j);
      LastIs(rs, |rs|, d, key, j);
      assert Reported(o, s, qs[j], scope, rs[j]);
    }
  }

  lemma GatheredMatch(o: Options, s: State, qs: seq<Query>, scope: Scope, rs: seq<Results>, d: ShortId,
                      record: map<string, seq<string>>, key: string, i: nat)
    requires |rs| == |qs| && forall j :: 0 <= j < |qs| ==> Reported(o, s, qs[j], scope, rs[j])
    requires Gathers(rs, |rs|, d, record) && i < |qs| && Selects(qs[i], scope.maxFuzzy, key)
    ensures (if key in record then record[key] else []) == Answer(o, s, qs[i], scope, d, key)
  {
    hide Answer, LastWith, Selects;
    assert Reported(o, s, qs[i], scope, rs[i]) && MatchOf(rs[i], d, key) == Answer(o, s, qs[i], scope, d, key);
    if key in record {
      var j: nat :| LastWith(rs, |rs|, d, key, j);
      LastIs(rs, |rs|, d, key, j);
      assert Reported(o, s, qs[j], scope, rs[j]) && MatchOf(rs[j], d, key) == Answer(o, s, qs[j], scope, d, key);
      SameAnswer(o, s, qs[j], qs[i], scope, d, key);
    } else if Answer(o, s, qs[i], scope, d, key) != [] {
      var j := LastThere(rs, |rs|, d, key, i);
    }
  }

  lemma NoMatch(o: Options, s: State, qs: seq<Query>, scope: Scope, rs: seq<Results>, d: ShortId,
                record: map<string, seq<string>>, key: string)
    requires |rs| == |qs| && forall j :: 0 <= j < |qs| ==> Reported(o, s, qs[j], scope, rs[j])
    requires Gathers(rs, |rs|, d, record) && forall i :: 0 <= i < |qs| ==> !Selects(qs[i], scope.maxFuzzy, key)
    ensures key !in record
  {
    hide Answer, LastWith, Selects;
    if key in record {
      var j: nat :| LastWith(rs, |rs|, d, key, j);
      LastIs(rs, |rs|, d, key, j);
      assert Reported(o, s, qs[j], scope, rs[j]) && MatchOf(rs[j], d, key) == Answer(o, s, qs[j], scope, d, key);
      SameAnswer(o, s, qs[j], qs[j], scope, d, key);
      assert false;
    }
  }

  // ----- whole histories -----

  /** A call that changes documents, honestly, or one that only cleans up. */
  ghost predicate Follows(o: Options, s: State, s': State) {
    (exists op :: Unchanged(s, op) && s' == Do(o, s, op)) || Loses(s, s')
  }

  ghost predicate History(o: Options, states: seq<State>) {
    states != [] && states[0] == EMPTY && forall i :: 0 < i < |states| ==> Follows(o, states[i - 1], states[i])
  }

  /** Whatever is added, removed as it was added, discarded, searched and vacuumed, in one go or in parts: the id tables
      are inverse, and the postings of live documents are the occurrences of their terms. */
  lemma {:induction false} HistoryKeeps(o: Options, states: seq<State>, i: nat)
    requires History(o, states) && i < |states|
    ensures Coherent(states[i]) && Faithful(o, states[i])
  {
    hide Coherent, Faithful, Loses, Unchanged, Do;
    if i == 0 {
      NothingFaithful(o);
    } else {
      HistoryKeeps(o, states, i - 1);
      var s, s' := states[i - 1], states[i];
      assert Follows(o, s, s');
      if Loses(s, s') {
        LosesCoherent(s, s');
        LosesFaithful(o, s, s');
      } else {
        var op :| Unchanged(s, op) && s' == Do(o, s, op);
        DoKeeps(o, s, op);
      }
    }
  }
}

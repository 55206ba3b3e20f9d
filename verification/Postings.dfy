/** The inverted index as a value: for each term, the fields and documents it occurs in
    and how often. */
module Postings {
  type ShortId = nat
  type FieldId = nat

  /** The `Map`s below one term: field, then document, then number of occurrences. */
  type Posting = map<FieldId, map<ShortId, nat>>

  type Index = map<string, Posting>

  function CountIn(p: Posting, f: FieldId, d: ShortId): nat {
    if f in p && d in p[f] then p[f][d] else 0
  }

  function Count(c: Index, t: string, f: FieldId, d: ShortId): nat {
    if t in c then CountIn(c[t], f, d) else 0
  }

  /** No empty `Map` and no zero is left lying around. */
  ghost predicate TidyIn(p: Posting) {
    forall f :: f in p ==> p[f] != map[] && forall d :: d in p[f] ==> p[f][d] >= 1
  }

  ghost predicate Tidy(c: Index) {
    forall t :: t in c ==> c[t] != map[] && TidyIn(c[t])
  }

  lemma InnerKeys(p: Posting, p': Posting)
    requires TidyIn(p) && forall f, d :: CountIn(p, f, d) == CountIn(p', f, d)
    ensures p.Keys <= p'.Keys && forall f :: f in p ==> p[f].Keys <= p'[f].Keys
  {
    forall f | f in p
      ensures f in p' && p[f].Keys <= p'[f].Keys
    {
      forall d | d in p[f]
        ensures f in p' && d in p'[f]
      {
        assert CountIn(p, f, d) == CountIn(p', f, d);
      }
      assert p[f].Keys != {};
      var d :| d in p[f].Keys;
      assert d in p[f];
    }
  }

  lemma InnerEq(p: Posting, p': Posting)
    requires TidyIn(p) && TidyIn(p') && forall f, d :: CountIn(p, f, d) == CountIn(p', f, d)
    ensures p == p'
  {
    InnerKeys(p, p');
    InnerKeys(p', p);
    forall f | f in p
      ensures p[f] == p'[f]
    {
      forall d | d in p[f] ensures p[f][d] == p'[f][d] {
        assert CountIn(p, f, d) == CountIn(p', f, d);
      }
    }
  }

  lemma SomeCount(p: Posting) returns (f: FieldId, d: ShortId)
    requires TidyIn(p) && p != map[]
    ensures CountIn(p, f, d) > 0
  {
    assert p.Keys != {};
    f :| f in p.Keys;
    assert p[f] != map[];
    assert p[f].Keys != {};
    d :| d in p[f].Keys;
  }

  /** A tidy index is determined by its counts. */
  lemma TidyEq(c: Index, c': Index)
    requires Tidy(c) && Tidy(c') && forall t, f, d :: Count(c, t, f, d) == Count(c', t, f, d)
    ensures c == c'
  {
    hide TidyIn, CountIn;
    forall t
      ensures t in c <==> t in c'
      ensures t in c && t in c' ==> c[t] == c'[t]
    {
      if t in c {
        var f, d := SomeCount(c[t]);
        assert Count(c, t, f, d) == Count(c', t, f, d);
      }
      if t in c' {
        var f, d := SomeCount(c'[t]);
        assert Count(c, t, f, d) == Count(c', t, f, d);
      }
      if t in c && t in c' {
        forall f, d ensures CountIn(c[t], f, d) == CountIn(c'[t], f, d) {
          assert Count(c, t, f, d) == Count(c', t, f, d);
        }
        InnerEq(c[t], c'[t]);
      }
    }
  }

  // ----- one term of one document -----

  function Bump(m: map<ShortId, nat>, d: ShortId, n: nat): map<ShortId, nat> { m[d := n] }

  /** One more occurrence: the second half of `addTerm`. */
  function AddIn(p: Posting, f: FieldId, d: ShortId): Posting {
    if f !in p then p[f := Bump(map[], d, 1)] else p[f := Bump(p[f], d, CountIn(p, f, d) + 1)]
  }

  /** One occurrence less: the middle of `removeTerm`. */
  function RemoveIn(p: Posting, f: FieldId, d: ShortId): Posting {
    if f !in p || d !in p[f] then p
    else if p[f][d] <= 1 then (if |p[f]| <= 1 then p - {f} else p[f := p[f] - {d}])
    else p[f := Bump(p[f], d, p[f][d] - 1)]
  }

  function One(b: bool): nat { if b then 1 else 0 }

  function Less(n: nat, m: nat): nat { if n >= m then n - m else 0 }

  lemma AddInCount(p: Posting, f: FieldId, d: ShortId)
    requires TidyIn(p)
    ensures TidyIn(AddIn(p, f, d)) && AddIn(p, f, d) != map[]
    ensures forall f', d' :: CountIn(AddIn(p, f, d), f', d') == CountIn(p, f', d') + One(f' == f && d' == d)
  {
    assert f in AddIn(p, f, d);
    assert d in AddIn(p, f, d)[f];
  }

  lemma OnlyOne(m: map<ShortId, nat>, d: ShortId)
    requires d in m && |m| <= 1
    ensures m.Keys == {d}
  {
    assert m.Keys == {d} + (m.Keys - {d});
    assert |m.Keys| == 1 + |m.Keys - {d}|;
  }

  lemma MoreThanOne(m: map<ShortId, nat>, d: ShortId)
    requires d in m && |m| > 1
    ensures m - {d} != map[]
  {
    assert m.Keys == {d} + (m - {d}).Keys;
  }

  lemma RemoveInCount(p: Posting, f: FieldId, d: ShortId)
    requires TidyIn(p)
    ensures TidyIn(RemoveIn(p, f, d))
    ensures forall f', d' :: CountIn(RemoveIn(p, f, d), f', d') == Less(CountIn(p, f', d'), One(f' == f && d' == d))
  {
    if f in p && d in p[f] && p[f][d] <= 1 {
      if |p[f]| <= 1 { OnlyOne(p[f], d); } else { MoreThanOne(p[f], d); }
    }
  }

  /** One call of `addTerm` or `removeTerm`. */
  function Step(c: Index, d: ShortId, post: (FieldId, string), adding: bool): Index {
    var (f, t) := post;
    if adding then c[t := AddIn(if t in c then c[t] else map[], f, d)]
    else if t !in c then c
    else if RemoveIn(c[t], f, d) == map[] then c - {t}
    else c[t := RemoveIn(c[t], f, d)]
  }

  function After(n: nat, m: nat, adding: bool): nat {
    if adding then n + m else Less(n, m)
  }

  lemma StepCount(c: Index, d: ShortId, post: (FieldId, string), adding: bool)
    requires Tidy(c)
    ensures Tidy(Step(c, d, post, adding))
    ensures forall t, f: FieldId, d': ShortId ::
      Count(Step(c, d, post, adding), t, f, d') == After(Count(c, t, f, d'), One((f, t) == post && d' == d), adding)
  {
    hide TidyIn, CountIn, AddIn, RemoveIn;
    var (f, t) := post;
    if adding {
      NoneIn();
      AddInCount(if t in c then c[t] else map[], f, d);
    } else if t in c {
      RemoveInCount(c[t], f, d);
      if RemoveIn(c[t], f, d) == map[] {
        NoneIn();
        forall f', d' ensures Less(CountIn(c[t], f', d'), One(f' == f && d' == d)) == 0 {
          assert CountIn(RemoveIn(c[t], f, d), f', d') == 0;
        }
      }
    }
  }

  lemma NoneIn()
    ensures TidyIn(map[]) && forall f, d :: CountIn(map[], f, d) == 0
  {
  }

  /** A run of calls for the same document. */
  function Apply(c: Index, d: ShortId, posts: seq<(FieldId, string)>, adding: bool): Index {
    if posts == [] then c
    else Step(Apply(c, d, posts[..|posts| - 1], adding), d, posts[|posts| - 1], adding)
  }

  lemma {:induction false} ApplyCount(c: Index, d: ShortId, posts: seq<(FieldId, string)>, adding: bool)
    requires Tidy(c)
    ensures Tidy(Apply(c, d, posts, adding))
    ensures forall t, f: FieldId, d': ShortId ::
      Count(Apply(c, d, posts, adding), t, f, d') == After(Count(c, t, f, d'), if d' == d then multiset(posts)[(f, t)] else 0, adding)
  {
    hide Tidy, Count, Step;
    if posts != [] {
      var l := |posts| - 1;
      assert posts == posts[..l] + [posts[l]];
      ApplyCount(c, d, posts[..l], adding);
      StepCount(Apply(c, d, posts[..l], adding), d, posts[l], adding);
    }
  }

  lemma {:induction false} ApplyTwice(c: Index, d: ShortId, a: seq<(FieldId, string)>, b: seq<(FieldId, string)>, adding: bool)
    ensures Apply(c, d, a + b, adding) == Apply(Apply(c, d, a, adding), d, b, adding)
    decreases |b|
  {
    hide Step;
    if b == [] {
      assert a + b == a;
    } else {
      var l := |b| - 1;
      assert (a + b)[..|a + b| - 1] == a + b[..l] && (a + b)[|a + b| - 1] == b[l];
      ApplyTwice(c, d, a, b[..l], adding);
    }
  }

  /** Removing what has been added gives back the very same index. */
  lemma AddThenRemove(c: Index, d: ShortId, posts: seq<(FieldId, string)>)
    requires Tidy(c)
    ensures Apply(Apply(c, d, posts, true), d, posts, false) == c
  {
    hide Tidy, Count, Apply;
    var c1 := Apply(c, d, posts, true);
    ApplyCount(c, d, posts, true);
    ApplyCount(c1, d, posts, false);
    TidyEq(Apply(c1, d, posts, false), c);
  }

  // ----- dropping documents -----

  function Kept(e: map<ShortId, nat>, live: set<ShortId>): map<ShortId, nat> {
    map d | d in e && d in live :: e[d]
  }

  /** What is left of the postings of a term when only live documents stay. */
  function Purge(p: Posting, live: set<ShortId>): Posting {
    map f | f in p && p[f].Keys * live != {} :: Kept(p[f], live)
  }

  lemma PurgeCount(p: Posting, live: set<ShortId>)
    requires TidyIn(p)
    ensures TidyIn(Purge(p, live))
    ensures forall f, d :: CountIn(Purge(p, live), f, d) == if d in live then CountIn(p, f, d) else 0
  {
    var r := Purge(p, live);
    forall f | f in r
      ensures r[f] != map[] && forall d :: d in r[f] ==> r[f][d] >= 1
    {
      var d :| d in p[f].Keys * live;
      assert d in r[f];
    }
    forall f, d
      ensures CountIn(r, f, d) == if d in live then CountIn(p, f, d) else 0
    {
      if f in p && d in p[f] && d in live { assert d in p[f].Keys * live; }
    }
  }

  function PurgeAll(c: Index, live: set<ShortId>): Index {
    map t | t in c && Purge(c[t], live) != map[] :: Purge(c[t], live)
  }

  lemma PurgeAllCount(c: Index, live: set<ShortId>)
    requires Tidy(c)
    ensures Tidy(PurgeAll(c, live))
    ensures forall t, f, d :: Count(PurgeAll(c, live), t, f, d) == if d in live then Count(c, t, f, d) else 0
  {
    hide TidyIn, CountIn, Purge;
    NoneIn();
    forall t | t in c
      ensures TidyIn(Purge(c[t], live))
      ensures forall f, d :: CountIn(Purge(c[t], live), f, d) == if d in live then CountIn(c[t], f, d) else 0
    {
      PurgeCount(c[t], live);
    }
  }

  /** All postings of live documents, and nothing else, survive: a purge after forgetting `d`
      is the same as removing the postings of `d` one by one, and then purging the rest. */
  lemma PurgeIsRemove(c: Index, d: ShortId, posts: seq<(FieldId, string)>, live: set<ShortId>)
    requires Tidy(c) && forall t, f :: Count(c, t, f, d) == multiset(posts)[(f, t)]
    ensures PurgeAll(c, live - {d}) == PurgeAll(Apply(c, d, posts, false), live - {d})
    ensures (forall t, f, d' :: d' !in live ==> Count(c, t, f, d') == 0) ==>
      PurgeAll(c, live - {d}) == Apply(c, d, posts, false)
  {
    hide Tidy, Count, Apply, PurgeAll;
    var c' := Apply(c, d, posts, false);
    ApplyCount(c, d, posts, false);
    PurgeAllCount(c, live - {d});
    PurgeAllCount(c', live - {d});
    TidyEq(PurgeAll(c, live - {d}), PurgeAll(c', live - {d}));
    if forall t, f, d' :: d' !in live ==> Count(c, t, f, d') == 0 {
      TidyEq(PurgeAll(c, live - {d}), c');
    }
  }
}

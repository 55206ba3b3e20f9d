/** The full-text index object: its fields, and the methods that edit them in place. */
module SearchIndex {
  import opened JsMaps
  import opened RadixTree
  import opened RadixStore
  import opened RadixMaps
  import opened RadixIterators
  import opened RadixPauses
  import opened Postings
  import opened SearchDocs
  import opened SearchState

  datatype Result = Done | MissingId | DuplicateId | UnknownId

  // ----- iterators over the index while one key of it changes -----

  /** Every iterator that no longer owes `k` is as good after the change as before. */
  ghost predicate Undisturbed(store: Store<Posting>, tree: Tree<Posting>, store': Store<Posting>, tree': Tree<Posting>, k: string) {
    forall p, path, todo :: Ready(store, tree, p, path, todo) && !Owes(todo, k) ==> Ready(store', tree', p, path, todo)
  }

  lemma Still(store: Store<Posting>, tree: Tree<Posting>, k: string)
    ensures Undisturbed(store, tree, store, tree, k)
  {
  }

  lemma Onward(store: Store<Posting>, tree: Tree<Posting>, store1: Store<Posting>, tree1: Tree<Posting>,
               store2: Store<Posting>, tree2: Tree<Posting>, k: string)
    requires Undisturbed(store, tree, store1, tree1, k) && Undisturbed(store1, tree1, store2, tree2, k)
    ensures Undisturbed(store, tree, store2, tree2, k)
  {
    hide Ready, Owes;
  }

  lemma AfterSet(store: Store<Posting>, tree: Tree<Posting>, k: string, v: Posting, f: Ref, store': Store<Posting>, tree': Tree<Posting>)
    requires Compressed(tree) && Rep(store, tree) && Lookup(tree, k).Some? && tree' == Insert(tree, k, v, f)
    requires var n := At(tree, k);
      n.Some? && n.value.ref in store && store' == store[n.value.ref := Put(store[n.value.ref], "", Leaf(v))]
    ensures Undisturbed(store, tree, store', tree', k)
  {
    hide Compressed, Rep, Ready, Owes, Lookup, At, Insert, Put;
    forall p, path, todo | Ready(store, tree, p, path, todo) && !Owes(todo, k)
      ensures Ready(store', tree', p, path, todo)
    {
      ReadyAfterSet(store, tree, k, v, f, p, path, todo);
    }
  }

  lemma AfterDelete(store: Store<Posting>, tree: Tree<Posting>, k: string, store': Store<Posting>, tree': Tree<Posting>)
    requires Compressed(tree) && Rep(store, tree) && Lookup(tree, k).Some?
    requires tree' == RadixTree.Delete(tree, k) && Deleted(store, store', tree, k)
    ensures Undisturbed(store, tree, store', tree', k)
  {
    hide Compressed, Rep, Ready, Owes, Lookup, RadixTree.Delete, Deleted;
    forall p, path, todo | Ready(store, tree, p, path, todo) && !Owes(todo, k)
      ensures Ready(store', tree', p, path, todo)
    {
      ReadyAfterDelete(store, store', tree, k, p, path, todo);
    }
  }

  /** Keys only go away, and every iterator none of whose owed keys has gone can go on with what is there now. */
  ghost predicate Steady(store: Store<Posting>, tree: Tree<Posting>, store': Store<Posting>, tree': Tree<Posting>) {
    && Shrinks(tree, tree')
    && forall p, path, todo :: Ready(store, tree, p, path, todo) && Remain(todo, tree') ==>
         Ready(store', tree', p, path, Reread(todo, tree'))
  }

  lemma SteadyStill(store: Store<Posting>, tree: Tree<Posting>)
    ensures Steady(store, tree, store, tree)
  {
    hide Ready, Lookup, Reread, Remain;
    forall p, path, todo | Ready(store, tree, p, path, todo)
      ensures Ready(store, tree, p, path, Reread(todo, tree))
    {
      ReadAgain(store, tree, p, path, todo);
    }
  }

  lemma SteadyExtended(store: Store<Posting>, store': Store<Posting>, tree: Tree<Posting>)
    requires Extends(store, store')
    ensures Steady(store, tree, store', tree)
  {
    hide Ready, Lookup, Reread, Remain, Extends;
    forall p, path, todo | Ready(store, tree, p, path, todo)
      ensures Ready(store', tree, p, path, Reread(todo, tree))
    {
      ReadAgain(store, tree, p, path, todo);
      ReadyExtended(store, store', tree, p, path, todo);
    }
  }

  lemma SteadySet(store: Store<Posting>, tree: Tree<Posting>, k: string, v: Posting, f: Ref, store': Store<Posting>, tree': Tree<Posting>)
    requires Compressed(tree) && Rep(store, tree) && Lookup(tree, k).Some? && tree' == Insert(tree, k, v, f)
    requires var n := At(tree, k);
      n.Some? && n.value.ref in store && store' == store[n.value.ref := Put(store[n.value.ref], "", Leaf(v))]
    ensures Steady(store, tree, store', tree')
  {
    hide Compressed, Rep, Ready, Lookup, At, Insert, Put, Reread, Remain;
    forall x | Lookup(tree', x).Some? ensures Lookup(tree, x).Some? { InsertLookup(tree, k, v, f, x); }
    forall p, path, todo | Ready(store, tree, p, path, todo)
      ensures Ready(store', tree', p, path, Reread(todo, tree'))
    {
      ReadyReset(store, tree, k, v, f, p, path, todo);
    }
  }

  lemma SteadyDelete(store: Store<Posting>, tree: Tree<Posting>, k: string, store': Store<Posting>, tree': Tree<Posting>)
    requires Compressed(tree) && Rep(store, tree) && Lookup(tree, k).Some?
    requires tree' == RadixTree.Delete(tree, k) && Deleted(store, store', tree, k)
    ensures Steady(store, tree, store', tree')
  {
    hide Compressed, Rep, Ready, Owes, Lookup, RadixTree.Delete, Deleted, Reread;
    forall x ensures Lookup(tree', x) == if x == k then None else Lookup(tree, x) { DeleteLookup(tree, k, x); }
    forall p, path, todo | Ready(store, tree, p, path, todo) && Remain(todo, tree')
      ensures Ready(store', tree', p, path, Reread(todo, tree'))
    {
      ReadyAfterDelete(store, store', tree, k, p, path, todo);
      ReadAgain(store', tree', p, path, todo);
    }
  }

  /** Steady changes add up. */
  lemma SteadyOnward(store: Store<Posting>, tree: Tree<Posting>, store1: Store<Posting>, tree1: Tree<Posting>,
                     store2: Store<Posting>, tree2: Tree<Posting>)
    requires Compressed(tree) && Compressed(tree1)
    requires Steady(store, tree, store1, tree1) && Steady(store1, tree1, store2, tree2)
    ensures Steady(store, tree, store2, tree2)
  {
    hide Compressed, Ready, Owes, Lookup, Reread;
    forall p, path, todo | Ready(store, tree, p, path, todo) && Remain(todo, tree2)
      ensures Ready(store2, tree2, p, path, Reread(todo, tree2))
    {
      assert Remain(todo, tree1);
      var todo1 := Reread(todo, tree1);
      forall k | Owes(todo1, k) ensures Lookup(tree2, k).Some? {
        OwedBefore(store, tree, store1, tree1, p, path, todo, k);
      }
      assert Remain(todo1, tree2);
      ReadTwice(store2, tree1, tree2, p, path, todo);
    }
  }

  lemma HasTree(m: RadixMap<Posting>)
    requires m.Valid()
    ensures Compressed(m.tree)
  {
  }

  lemma HasLeaf(m: RadixMap<Posting>, k: string)
    requires m.Valid() && k in m.Content()
    ensures Lookup(m.tree, k).Some? && Compressed(m.tree) && Rep(m.store, m.tree)
  {
  }

  /** Change the value of a key that is there. */
  method SetHere(m: RadixMap<Posting>, k: string, v: Posting)
    requires m.Valid() && k in m.Content()
    modifies m
    ensures m.Valid() && m.Content() == old(m.Content())[k := v]
    ensures Undisturbed(old(m.store), old(m.tree), m.store, m.tree, k)
    ensures Steady(old(m.store), old(m.tree), m.store, m.tree)
  {
    hide *;
    HasLeaf(m, k);
    m.Set(k, v);
    SteadySet(old(m.store), old(m.tree), k, v, old(m.next), m.store, m.tree);
    AfterSet(old(m.store), old(m.tree), k, v, old(m.next), m.store, m.tree);
  }

  method DeleteHere(m: RadixMap<Posting>, k: string)
    requires m.Valid() && k in m.Content()
    modifies m
    ensures m.Valid() && m.Content() == old(m.Content()) - {k}
    ensures Undisturbed(old(m.store), old(m.tree), m.store, m.tree, k)
    ensures Steady(old(m.store), old(m.tree), m.store, m.tree)
  {
    hide *;
    HasLeaf(m, k);
    m.Delete(k);
    SteadyDelete(old(m.store), old(m.tree), k, m.store, m.tree);
    AfterDelete(old(m.store), old(m.tree), k, m.store, m.tree);
  }

  /** Store the changed postings of a term back, or drop the term when nothing is left. */
  method StoreBack(m: RadixMap<Posting>, k: string, p: Posting)
    requires m.Valid() && k in m.Content()
    modifies m
    ensures m.Valid()
    ensures m.Content() == if p == map[] then old(m.Content()) - {k} else old(m.Content())[k := p]
    ensures Undisturbed(old(m.store), old(m.tree), m.store, m.tree, k)
    ensures Steady(old(m.store), old(m.tree), m.store, m.tree)
  {
    hide *;
    HasTree(m);
    SetHere(m, k, p);
    if |p| == 0 {
      ghost var store1, tree1 := m.store, m.tree;
      HasTree(m);
      DeleteHere(m, k);
      SteadyOnward(old(m.store), old(m.tree), store1, tree1, m.store, m.tree);
      Onward(old(m.store), old(m.tree), store1, tree1, m.store, m.tree, k);
      SetThenDrop(old(m.Content()), k, p);
    }
  }

  lemma SetThenDrop(c: Index, k: string, p: Posting)
    ensures c[k := p] - {k} == c - {k}
  {
  }

  /** `addTerm`. */
  method AddTerm(m: RadixMap<Posting>, f: FieldId, d: ShortId, t: string)
    requires m.Valid()
    modifies m
    ensures m.Valid() && m.Content() == Step(old(m.Content()), d, (f, t), true)
  {
    hide *;
    var p := m.Fetch(t, map[]);
    m.Set(t, AddIn(p, f, d));
    AddStep(old(m.Content()), t, p, f, d);
  }

  lemma AddStep(c: Index, t: string, p: Posting, f: FieldId, d: ShortId)
    requires p == if t in c then c[t] else map[]
    ensures c[t := p][t := AddIn(p, f, d)] == Step(c, d, (f, t), true)
  {
    hide AddIn;
  }

  /** `removeTerm`. */
  method RemoveTerm(m: RadixMap<Posting>, f: FieldId, d: ShortId, t: string)
    requires m.Valid()
    modifies m
    ensures m.Valid() && m.Content() == Step(old(m.Content()), d, (f, t), false)
    ensures Undisturbed(old(m.store), old(m.tree), m.store, m.tree, t)
    ensures Steady(old(m.store), old(m.tree), m.store, m.tree)
  {
    hide RemoveIn, MapOf, Undisturbed, Steady;
    var p := m.Get(t);
    if p.None? {
      Still(m.store, m.tree, t);
      SteadyStill(m.store, m.tree);
      return;
    }
    StoreBack(m, t, RemoveIn(p.value, f, d));
  }

  method AddFields(fields: seq<string>) returns (ids: map<string, FieldId>)
    ensures ids == FieldIds(fields)
    ensures forall x :: x in ids <==> x in fields
    ensures forall x :: x in ids ==> LastAt(fields, x, ids[x])
  {
    ids := map[];
    for e := 0 to |fields|
      invariant ids == FieldIds(fields[..e])
    {
      assert fields[..e + 1][..e] == fields[..e];
      ids := ids[fields[e] := e];
    }
    assert fields[..|fields|] == fields;
    forall x | x in ids ensures LastAt(fields, x, ids[x]) {
      LastPositions(fields, x);
    }
  }

  /** The object. */
  class MiniSearch {
    const options: Options
    var fieldIds: map<string, FieldId>
    var index: RadixMap<Posting>
    var documentCount: nat
    var documentIds: map<ShortId, Id>
    var idToShortId: map<Id, ShortId>
    var fieldLength: FieldLengths
    var avgFieldLength: Averages
    var nextId: ShortId
    var storedFields: map<ShortId, map<string, string>>
    var dirtCount: nat
    ghost var docs: map<ShortId, Doc>

    ghost predicate Valid()
      reads this, index
    {
      index.Valid() && fieldIds == FieldIds(options.fields) && Coherent(Value())
    }

    /** The abstract value. */
    ghost function Value(): State
      reads this, index
      requires index.Valid()
    {
      State(index.Content(), documentIds, idToShortId, documentCount, fieldLength, avgFieldLength, nextId, storedFields, dirtCount, docs)
    }

    lemma Parts()
      requires Valid()
      ensures index.Valid() && fieldIds == FieldIds(options.fields) && Coherent(Value())
    {
    }

    lemma Fields()
      requires index.Valid()
      ensures Value() == State(index.Content(), documentIds, idToShortId, documentCount, fieldLength, avgFieldLength,
        nextId, storedFields, dirtCount, docs)
    {
    }

    lemma Whole()
      requires index.Valid() && fieldIds == FieldIds(options.fields) && Coherent(Value())
      ensures Valid()
    {
    }

    constructor (o: Options)
      ensures Valid() && fresh(index) && options == o && Value() == EMPTY
    {
      hide *;
      options := o;
      var ids := AddFields(o.fields);
      fieldIds := ids;
      index := new RadixMap();
      documentCount, documentIds, idToShortId := 0, map[], map[];
      fieldLength, avgFieldLength, nextId := map[], map[], 0;
      storedFields, dirtCount, docs := map[], 0, map[];
      new;
      Fields();
      NothingCoherent();
      Whole();
    }

    /** The terms of one token. */
    method ChangeTerms(f: FieldId, d: ShortId, terms: seq<string>, adding: bool)
      requires index.Valid()
      modifies index
      ensures index.Valid() && index.Content() == Apply(old(index.Content()), d, Tag(f, terms), adding)
      ensures !adding ==> Steady(old(index.store), old(index.tree), index.store, index.tree)
    {
      hide MapOf, Step, Compressed, Rep, Steady;
      ghost var c, store, tree := index.Content(), index.store, index.tree;
      SteadyStill(store, tree);
      var i := 0;
      while i < |terms|
        invariant i <= |terms| && index.Valid() && index == old(index)
        invariant index.Content() == Apply(c, d, Tag(f, terms[..i]), adding)
        invariant !adding ==> Steady(store, tree, index.store, index.tree)
      {
        if adding {
          AddTerm(index, f, d, terms[i]);
        } else {
          ghost var store1, tree1 := index.store, index.tree;
          RemoveTerm(index, f, d, terms[i]);
          SteadyOnward(store, tree, store1, tree1, index.store, index.tree);
        }
        TagMore(f, terms, i);
        i := i + 1;
      }
      assert terms[..i] == terms;
    }

    /** All tokens of a field. */
    method ChangeTokens(x: string, f: FieldId, d: ShortId, tokens: seq<string>, adding: bool)
      requires index.Valid()
      modifies index
      ensures index.Valid() && index.Content() == Apply(old(index.Content()), d, TokenPosts(options, x, f, tokens), adding)
      ensures !adding ==> Steady(old(index.store), old(index.tree), index.store, index.tree)
    {
      hide MapOf, Apply, Compressed, Rep, Tag, Steady;
      ghost var c, store, tree := index.Content(), index.store, index.tree;
      SteadyStill(store, tree);
      NoPosts(c, d, adding);
      var i := 0;
      while i < |tokens|
        invariant i <= |tokens| && index.Valid() && index == old(index)
        invariant index.Content() == Apply(c, d, TokenPosts(options, x, f, tokens[..i]), adding)
        invariant !adding ==> Steady(store, tree, index.store, index.tree)
      {
        var terms := TermsOf(options.process(tokens[i], x));
        ghost var store1, tree1 := index.store, index.tree;
        ChangeTerms(f, d, terms, adding);
        if !adding { SteadyOnward(store, tree, store1, tree1, index.store, index.tree); }
        TokensMore(options, x, f, tokens, i);
        ApplyTwice(c, d, TokenPosts(options, x, f, tokens[..i]), Tag(f, terms), adding);
        i := i + 1;
      }
      assert tokens[..i] == tokens;
    }

    method AddFieldLength(d: ShortId, f: FieldId, count: nat, n: nat)
      modifies this`fieldLength, this`avgFieldLength
      ensures fieldLength == old(fieldLength)[d := LengthsIn(old(fieldLength), d)[f := n]]
      ensures avgFieldLength == Raise(old(avgFieldLength), f, count, n)
    {
      var ls := if d in fieldLength then fieldLength[d] else map[];
      fieldLength := fieldLength[d := ls[f := n]];
      var avg := if f in avgFieldLength then avgFieldLength[f] else 0.0;
      avgFieldLength := avgFieldLength[f := RaiseBy(avg, count, n)];
    }

    method RemoveFieldLength(f: FieldId, count: nat, n: nat)
      requires count > 0
      modifies this`avgFieldLength
      ensures avgFieldLength == Lower(old(avgFieldLength), f, count, n)
    {
      var avg := if f in avgFieldLength then avgFieldLength[f] else 0.0;
      avgFieldLength := avgFieldLength[f := LowerBy(avg, count, n)];
    }

    /** The loop over the fields in `add`. */
    method AddTexts(doc: Doc, d: ShortId)
      requires index.Valid() && fieldIds == FieldIds(options.fields) && documentCount > 0 && d !in fieldLength
      modifies index, this`fieldLength, this`avgFieldLength
      ensures index.Valid() && index.Content() == Apply(old(index.Content()), d, Posts(options, doc), true)
      ensures fieldLength == WithLengths(old(fieldLength), d, LengthsOf(options, doc))
      ensures avgFieldLength == RaiseUpto(old(avgFieldLength), options, doc, |options.fields|, documentCount - 1)
    {
      hide *;
      ghost var c, fl, avgs := index.Content(), fieldLength, avgFieldLength;
      NoPosts(c, d, true);
      NoLengths(fl, d);
      UptoNone(options, doc, avgs, documentCount - 1);
      var i := 0;
      while i < |options.fields|
        invariant i <= |options.fields| && index.Valid() && index == old(index)
        invariant index.Content() == Apply(c, d, PostsUpto(options, doc, i), true)
        invariant fieldLength == WithLengths(fl, d, LengthsUpto(options, doc, i))
        invariant avgFieldLength == RaiseUpto(avgs, options, doc, i, documentCount - 1)
      {
        var x := options.fields[i];
        UptoMore(options, doc, i, avgs, documentCount - 1);
        if x in doc.texts {
          var tokens := options.tokenize(doc.texts[x], x);
          var f := fieldIds[x];
          var n := |set t | t in tokens|;
          AddFieldLength(d, f, documentCount - 1, n);
          MoreLengths(fl, d, LengthsUpto(options, doc, i), f, n);
          ChangeTokens(x, f, d, tokens, true);
          ApplyTwice(c, d, PostsUpto(options, doc, i), FieldPosts(options, doc, x), true);
        }
        i := i + 1;
      }
    }

    /** The loop over the fields in `remove`. */
    method RemoveTexts(doc: Doc, d: ShortId)
      requires index.Valid() && fieldIds == FieldIds(options.fields) && documentCount > 0
      modifies index, this`avgFieldLength
      ensures index.Valid() && index.Content() == Apply(old(index.Content()), d, Posts(options, doc), false)
      ensures avgFieldLength == LowerUpto(old(avgFieldLength), options, doc, |options.fields|, documentCount)
      ensures Steady(old(index.store), old(index.tree), index.store, index.tree)
    {
      hide *;
      ghost var c, avgs, store, tree := index.Content(), avgFieldLength, index.store, index.tree;
      SteadyStill(store, tree);
      HasTree(index);
      NoPosts(c, d, false);
      UptoNone(options, doc, avgs, documentCount);
      var i := 0;
      while i < |options.fields|
        invariant i <= |options.fields| && index.Valid() && index == old(index)
        invariant index.Content() == Apply(c, d, PostsUpto(options, doc, i), false)
        invariant avgFieldLength == LowerUpto(avgs, options, doc, i, documentCount)
        invariant Steady(store, tree, index.store, index.tree)
      {
        var x := options.fields[i];
        UptoMore(options, doc, i, avgs, documentCount);
        if x in doc.texts {
          var tokens := options.tokenize(doc.texts[x], x);
          var f := fieldIds[x];
          RemoveFieldLength(f, documentCount, |set t | t in tokens|);
          HasTree(index);
          ghost var store1, tree1 := index.store, index.tree;
          ChangeTokens(x, f, d, tokens, false);
          SteadyOnward(store, tree, store1, tree1, index.store, index.tree);
          ApplyTwice(c, d, PostsUpto(options, doc, i), FieldPosts(options, doc, x), false);
        }
        i := i + 1;
      }
    }

    method AddDocumentId(id: Id, ghost doc: Doc) returns (d: ShortId)
      modifies this`idToShortId, this`documentIds, this`documentCount, this`nextId, this`docs
      ensures d == old(nextId) && nextId == d + 1 && documentCount == old(documentCount) + 1
      ensures idToShortId == old(idToShortId)[id := d] && documentIds == old(documentIds)[d := id]
      ensures docs == old(docs)[d := doc]
    {
      d := nextId;
      idToShortId := idToShortId[id := d];
      documentIds := documentIds[d := id];
      documentCount := documentCount + 1;
      nextId := nextId + 1;
      docs := docs[d := doc];
    }

    method SaveStoredFields(d: ShortId, doc: Doc)
      modifies this`storedFields
      ensures storedFields == WithStored(options, old(storedFields), d, doc)
    {
      if options.storeFields != [] {
        storedFields := storedFields[d := map x | x in doc.texts && x in options.storeFields :: doc.texts[x]];
      }
    }

    /** Take a document out of the tables. */
    method Forget(id: Id, d: ShortId)
      requires documentCount > 0
      modifies this`idToShortId, this`documentIds, this`storedFields, this`fieldLength, this`documentCount, this`docs
      ensures idToShortId == old(idToShortId) - {id} && documentIds == old(documentIds) - {d}
      ensures storedFields == old(storedFields) - {d} && fieldLength == old(fieldLength) - {d}
      ensures documentCount == old(documentCount) - 1 && docs == old(docs) - {d}
    {
      storedFields := storedFields - {d};
      documentIds := documentIds - {d};
      idToShortId := idToShortId - {id};
      fieldLength := fieldLength - {d};
      documentCount := documentCount - 1;
      docs := docs - {d};
    }

    /** `add`. */
    method Add(doc: Doc) returns (r: Result)
      requires Valid()
      modifies this, index
      ensures Valid() && index == old(index)
      ensures r == if doc.id.None? then MissingId else if doc.id.value in old(idToShortId) then DuplicateId else Done
      ensures Value() == Do(options, old(Value()), SearchState.Op.Add(doc))
    {
      hide *;
      Parts();
      Fields();
      AddIs(options, Value(), doc);
      if doc.id.None? { return MissingId; }
      if doc.id.value in idToShortId { return DuplicateId; }
      ghost var s := Value();
      Unused(s);
      AddCoherent(options, s, doc);
      var d := AddDocumentId(doc.id.value, doc);
      SaveStoredFields(d, doc);
      AddTexts(doc, d);
      Fields();
      Whole();
      return Done;
    }

    /** `remove`. */
    method Remove(doc: Doc) returns (r: Result)
      requires Valid()
      modifies this, index
      ensures Valid() && index == old(index)
      ensures r == if doc.id.None? then MissingId else if doc.id.value in old(idToShortId) then Done else UnknownId
      ensures Value() == Do(options, old(Value()), SearchState.Op.Remove(doc))
      ensures Steady(old(index.store), old(index.tree), index.store, index.tree)
    {
      hide *;
      SteadyStill(index.store, index.tree);
      Parts();
      Fields();
      RemoveIs(options, Value(), doc);
      if doc.id.None? { return MissingId; }
      if doc.id.value !in idToShortId { return UnknownId; }
      ghost var s := Value();
      CountPositive(s, doc.id.value);
      RemoveCoherent(options, s, doc);
      var d := idToShortId[doc.id.value];
      RemoveTexts(doc, d);
      Forget(doc.id.value, d);
      Fields();
      Whole();
      return Done;
    }

    /** `discard`, without the vacuum that may follow. */
    method Discard(id: Id) returns (r: Result)
      requires Valid()
      modifies this
      ensures Valid() && index == old(index)
      ensures r == if id in old(idToShortId) then Done else UnknownId
      ensures Value() == Do(options, old(Value()), SearchState.Op.Discard(id))
    {
      hide *;
      Parts();
      Fields();
      DiscardIs(options, Value(), id);
      if id !in idToShortId { return UnknownId; }
      ghost var s := Value();
      CountPositive(s, id);
      DiscardKeeps(options, s, id);
      var d := idToShortId[id];
      ForgetLengths(id, d);
      Fields();
      Whole();
      return Done;
    }

    method ForgetLengths(id: Id, d: ShortId)
      requires documentCount > 0
      modifies this`avgFieldLength, this`idToShortId, this`documentIds, this`storedFields, this`fieldLength,
        this`documentCount, this`docs, this`dirtCount
      ensures avgFieldLength == LowerAll(old(avgFieldLength), LengthsIn(old(fieldLength), d), old(documentCount))
      ensures idToShortId == old(idToShortId) - {id} && documentIds == old(documentIds) - {d}
      ensures storedFields == old(storedFields) - {d} && fieldLength == old(fieldLength) - {d}
      ensures documentCount == old(documentCount) - 1 && docs == old(docs) - {d} && dirtCount == old(dirtCount) + 1
    {
      hide *;
      LengthsHere(fieldLength, d);
      LowerRecorded(if d in fieldLength then fieldLength[d] else map[]);
      Forget(id, d);
      dirtCount := dirtCount + 1;
    }

    method LowerRecorded(ls: Lengths)
      requires documentCount > 0
      modifies this`avgFieldLength
      ensures avgFieldLength == LowerAll(old(avgFieldLength), ls, documentCount)
    {
      hide LowerBy;
      ghost var avgs := avgFieldLength;
      var fs := ls.Keys;
      while fs != {}
        invariant fs <= ls.Keys && avgFieldLength.Keys == avgs.Keys + (ls.Keys - fs)
        invariant forall f :: f in avgFieldLength ==>
          avgFieldLength[f] == if f in ls && f !in fs then LowerBy(Avg(avgs, f), documentCount, ls[f]) else avgs[f]
      {
        var f :| f in fs;
        RemoveFieldLength(f, documentCount, ls[f]);
        fs := fs - {f};
      }
    }
  }

  lemma UptoNone(o: Options, doc: Doc, avgs: Averages, count: nat)
    ensures PostsUpto(o, doc, 0) == [] && LengthsUpto(o, doc, 0) == map[]
    ensures RaiseUpto(avgs, o, doc, 0, count) == avgs && (count > 0 ==> LowerUpto(avgs, o, doc, 0, count) == avgs)
    ensures Posts(o, doc) == PostsUpto(o, doc, |o.fields|) && LengthsOf(o, doc) == LengthsUpto(o, doc, |o.fields|)
  {
  }

  /** One more field. */
  lemma UptoMore(o: Options, doc: Doc, i: nat, avgs: Averages, count: nat)
    requires i < |o.fields|
    ensures var x := o.fields[i];
      x in FieldIds(o.fields) &&
      if x in doc.texts then
        var f, tokens := FieldIds(o.fields)[x], o.tokenize(doc.texts[x], x);
        var n := |set t | t in tokens|;
        && FieldPosts(o, doc, x) == TokenPosts(o, x, f, tokens)
        && PostsUpto(o, doc, i + 1) == PostsUpto(o, doc, i) + FieldPosts(o, doc, x)
        && LengthsUpto(o, doc, i + 1) == LengthsUpto(o, doc, i)[f := n]
        && RaiseUpto(avgs, o, doc, i + 1, count) == Raise(RaiseUpto(avgs, o, doc, i, count), f, count, n)
        && (count > 0 ==> LowerUpto(avgs, o, doc, i + 1, count) == Lower(LowerUpto(avgs, o, doc, i, count), f, count, n))
      else
        && PostsUpto(o, doc, i + 1) == PostsUpto(o, doc, i) && LengthsUpto(o, doc, i + 1) == LengthsUpto(o, doc, i)
        && RaiseUpto(avgs, o, doc, i + 1, count) == RaiseUpto(avgs, o, doc, i, count)
        && (count > 0 ==> LowerUpto(avgs, o, doc, i + 1, count) == LowerUpto(avgs, o, doc, i, count))
  {
    hide Raise, Lower, TokenPosts;
    assert PostsUpto(o, doc, i) + [] == PostsUpto(o, doc, i);
  }

  lemma AddIs(o: Options, s: State, doc: Doc)
    ensures doc.id.None? || doc.id.value in s.shorts ==> Do(o, s, SearchState.Op.Add(doc)) == s
    ensures doc.id.Some? && doc.id.value !in s.shorts ==>
      Do(o, s, SearchState.Op.Add(doc)) == Added(o, s, doc) == State(
        Apply(s.content, s.next, Posts(o, doc), true), s.ids[s.next := doc.id.value], s.shorts[doc.id.value := s.next], s.count + 1,
        WithLengths(s.lengths, s.next, LengthsOf(o, doc)), RaiseUpto(s.avgs, o, doc, |o.fields|, s.count), s.next + 1,
        WithStored(o, s.stored, s.next, doc), s.dirt, s.docs[s.next := doc])
  {
    hide Apply, Posts, WithLengths, LengthsOf, RaiseUpto;
  }

  lemma RemoveIs(o: Options, s: State, doc: Doc)
    ensures doc.id.None? || doc.id.value !in s.shorts ==> Do(o, s, SearchState.Op.Remove(doc)) == s
    ensures doc.id.Some? && doc.id.value in s.shorts && s.count > 0 ==>
      Do(o, s, SearchState.Op.Remove(doc)) == Removed(o, s, doc) == State(
        Apply(s.content, s.shorts[doc.id.value], Posts(o, doc), false), s.ids - {s.shorts[doc.id.value]}, s.shorts - {doc.id.value},
        s.count - 1, s.lengths - {s.shorts[doc.id.value]}, LowerUpto(s.avgs, o, doc, |o.fields|, s.count), s.next,
        s.stored - {s.shorts[doc.id.value]}, s.dirt, s.docs - {s.shorts[doc.id.value]})
  {
    hide Apply, Posts, LowerUpto;
  }

  lemma DiscardIs(o: Options, s: State, id: Id)
    ensures id !in s.shorts ==> Do(o, s, SearchState.Op.Discard(id)) == s
    ensures id in s.shorts && s.count > 0 ==>
      Do(o, s, SearchState.Op.Discard(id)) == Discarded(s, id) == State(
        s.content, s.ids - {s.shorts[id]}, s.shorts - {id}, s.count - 1, s.lengths - {s.shorts[id]},
        LowerAll(s.avgs, LengthsIn(s.lengths, s.shorts[id]), s.count), s.next,
        s.stored - {s.shorts[id]}, s.dirt + 1, s.docs - {s.shorts[id]})
  {
    hide LowerAll, LengthsIn;
  }

  lemma LengthsHere(fl: FieldLengths, d: ShortId)
    ensures LengthsIn(fl, d) == if d in fl then fl[d] else map[]
  {
  }

  lemma NoPosts(c: Index, d: ShortId, adding: bool)
    ensures Apply(c, d, [], adding) == c
  {
  }

  lemma NoLengths(fl: FieldLengths, d: ShortId)
    ensures WithLengths(fl, d, map[]) == fl
  {
  }

  lemma MoreLengths(fl: FieldLengths, d: ShortId, ls: Lengths, f: FieldId, n: nat)
    requires d !in fl
    ensures var fl1 := WithLengths(fl, d, ls); fl1[d := LengthsIn(fl1, d)[f := n]] == WithLengths(fl, d, ls[f := n])
  {
    assert f in ls[f := n];
  }

  lemma TokensMore(o: Options, x: string, f: FieldId, tokens: seq<string>, i: nat)
    requires i < |tokens|
    ensures TokenPosts(o, x, f, tokens[..i + 1]) == TokenPosts(o, x, f, tokens[..i]) + Tag(f, TermsOf(o.process(tokens[i], x)))
  {
    assert tokens[..i + 1][..i] == tokens[..i];
  }

  lemma TagMore(f: FieldId, terms: seq<string>, i: nat)
    requires i < |terms|
    ensures Tag(f, terms[..i + 1]) == Tag(f, terms[..i]) + [(f, terms[i])]
  {
    assert terms[..i + 1][..i] == terms[..i];
  }
}

/** What runs of the index leave behind: the records of live documents, the dirt, and the dead documents that still have postings. */
module SearchRuns {
  import opened Postings
  import opened SearchDocs
  import opened SearchState

  lemma RunMore(o: Options, ops: seq<Op>, op: Op)
    ensures Run(o, ops + [op]) == Do(o, Run(o, ops), op)
  {
    hide Do;
    assert (ops + [op])[..|ops|] == ops;
  }

  /** After any run a document with a new id gets in, under the next short id, and nothing else about ids changes. */
  lemma RunAdds(o: Options, ops: seq<Op>, doc: Doc)
    requires doc.id.Some? && doc.id.value !in Run(o, ops).shorts
    ensures var s, t := Run(o, ops), Run(o, ops + [Add(doc)]);
      && t.ids == s.ids[s.next := doc.id.value] && t.docs == s.docs[s.next := doc] && t.next == s.next + 1
      && s.next !in s.ids && t.count == s.count + 1
  {
    hide Run, Coherent, Faithful, Apply, Posts, LengthsOf, RaiseUpto, WithStored;
    RunMore(o, ops, Add(doc));
    RunKeeps(o, ops);
    Unused(Run(o, ops));
  }

  // ----- records -----

  /** What is kept beside the postings of a live document: the fields to be stored, as they were added, if there are such
      fields, and the lengths of its fields, if it has one. */
  ghost predicate RecordOf(o: Options, s: State, d: ShortId) {
    && d in s.docs
    && (if o.storeFields == [] then d !in s.stored
        else d in s.stored && forall x ::
               && (x in s.stored[d] <==> x in s.docs[d].texts && x in o.storeFields)
               && (x in s.stored[d] ==> s.stored[d][x] == s.docs[d].texts[x]))
    && LengthsIn(s.lengths, d) == LengthsOf(o, s.docs[d])
    && (d in s.lengths <==> LengthsOf(o, s.docs[d]) != map[])
  }

  ghost predicate Records(o: Options, s: State) {
    forall d :: d in s.ids ==> RecordOf(o, s, d)
  }

  /** A record depends on nothing but these parts. */
  lemma SameRecord(o: Options, s: State, t: State, d: ShortId)
    requires RecordOf(o, s, d) && d in t.docs && t.docs[d] == s.docs[d]
    requires (d in t.stored <==> d in s.stored) && (d in s.stored ==> t.stored[d] == s.stored[d])
    requires (d in t.lengths <==> d in s.lengths) && (d in s.lengths ==> t.lengths[d] == s.lengths[d])
    ensures RecordOf(o, t, d)
  {
    hide LengthsOf;
  }

  lemma NewRecord(o: Options, s: State, doc: Doc)
    requires doc.id.Some? && s.next !in s.stored && s.next !in s.lengths
    ensures RecordOf(o, Added(o, s, doc), s.next)
  {
    hide Apply, Posts, RaiseUpto, LengthsOf;
  }

  lemma OldParts(o: Options, s: State, doc: Doc, d: ShortId)
    requires doc.id.Some? && d != s.next && d in s.docs
    ensures var t := Added(o, s, doc);
      && d in t.docs && t.docs[d] == s.docs[d]
      && (d in t.stored <==> d in s.stored) && (d in s.stored ==> t.stored[d] == s.stored[d])
      && (d in t.lengths <==> d in s.lengths) && (d in s.lengths ==> t.lengths[d] == s.lengths[d])
  {
    hide Apply, Posts, RaiseUpto, LengthsOf;
  }

  lemma AddRecords(o: Options, s: State, doc: Doc)
    requires Coherent(s) && Records(o, s) && doc.id.Some?
    ensures Records(o, Added(o, s, doc))
  {
    hide Coherent, Apply, Posts, RaiseUpto, LengthsOf, RecordOf, WithStored, WithLengths;
    Unused(s);
    var t := Added(o, s, doc);
    forall d | d in t.ids ensures RecordOf(o, t, d) {
      if d == s.next {
        NewRecord(o, s, doc);
      } else {
        InDocs(o, s, d);
        OldParts(o, s, doc, d);
        SameRecord(o, s, t, d);
      }
    }
  }

  lemma InDocs(o: Options, s: State, d: ShortId)
    requires RecordOf(o, s, d)
    ensures d in s.docs
  {
  }

  lemma DropRecords(o: Options, s: State, t: State, d: ShortId)
    requires Records(o, s) && t.ids == s.ids - {d} && t.docs == s.docs - {d} && t.stored == s.stored - {d} && t.lengths == s.lengths - {d}
    ensures Records(o, t)
  {
    hide LengthsOf;
    forall e | e in t.ids ensures RecordOf(o, t, e) {
      assert RecordOf(o, s, e);
    }
  }

  lemma DoRecords(o: Options, s: State, op: Op)
    requires Coherent(s) && Records(o, s)
    ensures Records(o, Do(o, s, op))
  {
    hide Records, Coherent, Apply, Posts, LengthsOf, RaiseUpto, LowerUpto, LowerAll, PurgeAll, WithStored, WithLengths, Added;
    match op
    case Add(doc) => if doc.id.Some? { AddRecords(o, s, doc); }
    case Remove(doc) =>
      if doc.id.Some? && doc.id.value in s.shorts && s.count > 0 { DropRecords(o, s, Removed(o, s, doc), s.shorts[doc.id.value]); }
    case Discard(id) => if id in s.shorts && s.count > 0 { DropRecords(o, s, Discarded(s, id), s.shorts[id]); }
    case Vacuum => SameRecords(o, s, Vacuumed(s));
  }

  lemma {:induction false} RunRecords(o: Options, ops: seq<Op>)
    ensures Records(o, Run(o, ops))
  {
    if ops != [] {
      hide Records, Coherent, Faithful, Do;
      var l := |ops| - 1;
      RunRecords(o, ops[..l]);
      RunKeeps(o, ops[..l]);
      DoRecords(o, Run(o, ops[..l]), ops[l]);
    }
  }

  lemma SameRecords(o: Options, s: State, t: State)
    requires Records(o, s) && t.ids == s.ids && t.docs == s.docs && t.stored == s.stored && t.lengths == s.lengths
    ensures Records(o, t)
  {
    forall d | d in t.ids ensures RecordOf(o, t, d) {
      assert RecordOf(o, s, d);
    }
  }

  /** In every run, whatever documents were handed to `remove`, a live document has exactly the fields to be stored, as they
      were added, and a length for exactly the last position of every field name that it has: the number of its different tokens. */
  lemma RecordsAre(o: Options, ops: seq<Op>, d: ShortId)
    requires d in Run(o, ops).ids
    ensures var s := Run(o, ops);
      && d in s.docs
      && (d in s.stored <==> o.storeFields != [])
      && (d in s.stored ==> forall x ::
            && (x in s.stored[d] <==> x in s.docs[d].texts && x in o.storeFields)
            && (x in s.stored[d] ==> s.stored[d][x] == s.docs[d].texts[x]))
      && (d in s.lengths <==> exists f: FieldId :: RecordedAt(o, s.docs[d], f))
      && (forall f: FieldId :: d in s.lengths ==> (f in s.lengths[d] <==> RecordedAt(o, s.docs[d], f)))
      && (forall f: FieldId :: d in s.lengths && f in s.lengths[d] ==>
            f < |o.fields| && o.fields[f] in s.docs[d].texts
            && s.lengths[d][f] == |set t | t in o.tokenize(s.docs[d].texts[o.fields[f]], o.fields[f])|)
  {
    hide Run, LengthsOf;
    RunRecords(o, ops);
    var s := Run(o, ops);
    assert RecordOf(o, s, d);
    var ls := LengthsOf(o, s.docs[d]);
    forall f: FieldId ensures f in ls <==> RecordedAt(o, s.docs[d], f) {
      LengthsAre(o, s.docs[d], f);
    }
    forall f: FieldId | f in ls
      ensures f < |o.fields| && o.fields[f] in s.docs[d].texts
        && ls[f] == |set t | t in o.tokenize(s.docs[d].texts[o.fields[f]], o.fields[f])|
    {
      LengthsAre(o, s.docs[d], f);
    }
    if ls != map[] { var f :| f in ls; assert RecordedAt(o, s.docs[d], f); }
  }

  ghost predicate RecordedAt(o: Options, doc: Doc, f: FieldId) {
    f < |o.fields| && LastAt(o.fields, o.fields[f], f) && o.fields[f] in doc.texts
  }

  // ----- dirt -----

  /** How many documents have been discarded since the last vacuum. */
  function DiscardedSince(o: Options, ops: seq<Op>): nat {
    if ops == [] then 0
    else
      var l := |ops| - 1;
      match ops[l]
      case Vacuum => 0
      case Discard(id) => DiscardedSince(o, ops[..l]) + if id in Run(o, ops[..l]).shorts then 1 else 0
      case _ => DiscardedSince(o, ops[..l])
  }

  /** The dead documents that still have postings. */
  ghost function Ghosts(s: State): set<ShortId> {
    set d: ShortId | 0 <= d < s.next && d !in s.ids && Posted(s.content, d)
  }

  ghost predicate Posted(c: Index, d: ShortId) {
    exists t, f: FieldId :: Count(c, t, f, d) > 0
  }

  /** `dirtCount` is the number of discards since the last vacuum, in every run; and if documents were removed as they were
      added, no more than so many dead documents have postings. */
  lemma {:induction false} DirtCounts(o: Options, ops: seq<Op>)
    ensures Run(o, ops).dirt == DiscardedSince(o, ops)
    ensures Honest(o, ops) ==> |Ghosts(Run(o, ops))| <= DiscardedSince(o, ops)
  {
    if ops == [] {
      assert Ghosts(EMPTY) == {};
    } else {
      hide Do, Ghosts, Honest, Unchanged, Coherent, Faithful;
      var l := |ops| - 1;
      var s := Run(o, ops[..l]);
      DirtCounts(o, ops[..l]);
      RunKeeps(o, ops[..l]);
      DirtStep(o, s, ops[l]);
      if Honest(o, ops) {
        HonestInit(o, ops);
        GhostStep(o, s, ops[l]);
      }
    }
  }

  lemma DirtStep(o: Options, s: State, op: Op)
    requires Coherent(s)
    ensures Do(o, s, op).dirt ==
      match op
      case Vacuum => 0
      case Discard(id) => s.dirt + (if id in s.shorts then 1 else 0)
      case _ => s.dirt
  {
    hide Tidy, Count, Apply, Posts, LengthsOf, RaiseUpto, LowerUpto, LowerAll, PurgeAll, WithStored, WithLengths;
    if op.Discard? && op.id in s.shorts { CountPositive(s, op.id); }
  }

  lemma GhostStep(o: Options, s: State, op: Op)
    requires Coherent(s) && Faithful(o, s) && Unchanged(s, op)
    ensures op.Vacuum? ==> Ghosts(Do(o, s, op)) == {}
    ensures !op.Vacuum? ==> |Ghosts(Do(o, s, op))| <= |Ghosts(s)| + if op.Discard? && op.id in s.shorts then 1 else 0
  {
    hide Coherent, Faithful, Added, Removed, Discarded, Vacuumed, Ghosts;
    match op
    case Add(doc) =>
      if doc.id.Some? && doc.id.value !in s.shorts { AddGhosts(o, s, doc); }
    case Remove(doc) =>
      if doc.id.Some? && doc.id.value in s.shorts && s.count > 0 { RemoveGhosts(o, s, doc); }
    case Discard(id) =>
      if id in s.shorts && s.count > 0 { DiscardGhosts(s, id); }
    case Vacuum => VacuumGhosts(o, s);
  }

  lemma AddGhosts(o: Options, s: State, doc: Doc)
    requires Coherent(s) && doc.id.Some?
    ensures |Ghosts(Added(o, s, doc))| <= |Ghosts(s)|
  {
    hide Coherent, Count, Apply, Posts, RaiseUpto, LengthsOf, WithStored, WithLengths;
    AddCounts(o, s, doc);
    SetSubset(Ghosts(Added(o, s, doc)), Ghosts(s));
  }

  lemma RemoveGhosts(o: Options, s: State, doc: Doc)
    requires Coherent(s) && Faithful(o, s) && doc.id.Some? && doc.id.value in s.shorts && s.count > 0 && Unchanged(s, Remove(doc))
    ensures |Ghosts(Removed(o, s, doc))| <= |Ghosts(s)|
  {
    hide Coherent, Count, Apply, Posts, LowerUpto, LengthsOf, Occurrences;
    Recorded(o, s, doc.id.value);
    RemoveCounts(o, s, doc, s.shorts[doc.id.value]);
    SetSubset(Ghosts(Removed(o, s, doc)), Ghosts(s));
  }

  lemma DiscardGhosts(s: State, id: Id)
    requires id in s.shorts && s.count > 0
    ensures |Ghosts(Discarded(s, id))| <= |Ghosts(s)| + 1
  {
    hide Count, LowerAll, LengthsIn, Posted;
    SetSubset(Ghosts(Discarded(s, id)), Ghosts(s) + {s.shorts[id]});
  }

  lemma VacuumGhosts(o: Options, s: State)
    requires Coherent(s)
    ensures Ghosts(Vacuumed(s)) == {}
  {
    hide Coherent, Faithful, Count, Vacuumed;
    VacuumKeeps(o, s);
  }

  lemma SetSubset<T>(a: set<T>, b: set<T>)
    requires a <= b
    ensures |a| <= |b|
  {
    assert b == a + (b - a);
  }
}

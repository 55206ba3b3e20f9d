/** The search index as a value, what each operation makes of it, and what every
    run of operations keeps. */
module SearchState {
  import opened JsMaps
  import opened Postings
  import opened SearchDocs

  /** The fields of the index object. `docs` remembers what was added under each short id. */
  datatype State = State(
    content: Index,
    ids: map<ShortId, Id>,
    shorts: map<Id, ShortId>,
    count: nat,
    lengths: FieldLengths,
    avgs: Averages,
    next: ShortId,
    stored: map<ShortId, map<string, string>>,
    dirt: nat,
    docs: map<ShortId, Doc>)

  const EMPTY := State(map[], map[], map[], 0, map[], map[], 0, map[], 0, map[])

  /** The two id tables are inverse, everything belongs to a known short id, and no
      document is counted twice. */
  ghost predicate Coherent(s: State) {
    && Tidy(s.content)
    && (forall d :: d in s.ids ==> d < s.next && s.ids[d] in s.shorts && s.shorts[s.ids[d]] == d)
    && (forall x :: x in s.shorts ==> s.shorts[x] in s.ids && s.ids[s.shorts[x]] == x)
    && s.count == |s.ids| == |s.shorts|
    && s.docs.Keys == s.ids.Keys && s.lengths.Keys <= s.ids.Keys && s.stored.Keys <= s.ids.Keys
    && (forall t, f: FieldId, d: ShortId :: Count(s.content, t, f, d) > 0 ==> d < s.next)
  }

  /** Every live posting is the number of occurrences of the term in the field. */
  ghost predicate Faithful(o: Options, s: State) {
    && (forall d, t, f :: d in s.docs ==> Count(s.content, t, f, d) == Occurrences(o, s.docs[d], f, t))
    && (forall d :: d in s.docs ==> d in s.ids && s.docs[d].id == Some(s.ids[d]))
    && (forall d :: d in s.docs ==> LengthsIn(s.lengths, d) == LengthsOf(o, s.docs[d]))
  }

  function LengthsIn(fl: FieldLengths, d: ShortId): Lengths { if d in fl then fl[d] else map[] }

  /** Only live documents have postings. */
  ghost predicate Clean(s: State) {
    forall t, f, d :: Count(s.content, t, f, d) > 0 ==> d in s.ids
  }

  /** Nothing but postings of dead documents may differ. */
  ghost predicate LiveSame(s: State, c: Index) {
    && Tidy(c)
    && forall t, f: FieldId, d: ShortId :: d in s.ids ==> Count(c, t, f, d) == Count(s.content, t, f, d)
  }

  /** A search, or a part of a vacuum: some postings of dead documents are lost. */
  ghost predicate Loses(s: State, s': State) {
    && s' == s.(content := s'.content, dirt := s'.dirt)
    && LiveSame(s, s'.content)
    && forall t, f: FieldId, d: ShortId :: Count(s'.content, t, f, d) <= Count(s.content, t, f, d)
  }

  lemma NothingCoherent()
    ensures EMPTY == State(map[], map[], map[], 0, map[], map[], 0, map[], 0, map[]) && Coherent(EMPTY)
  {
  }

  // ----- operations -----

  /** No record is made for a document without fields. */
  function WithLengths(fl: FieldLengths, d: ShortId, ls: Lengths): FieldLengths {
    if ls == map[] then fl else fl[d := ls]
  }

  /** `saveStoredFields`. */
  function WithStored(o: Options, stored: map<ShortId, map<string, string>>, d: ShortId, doc: Doc): map<ShortId, map<string, string>> {
    if o.storeFields == [] then stored
    else stored[d := map x | x in doc.texts && x in o.storeFields :: doc.texts[x]]
  }

  function Added(o: Options, s: State, doc: Doc): State
    requires doc.id.Some?
  {
    State(
      Apply(s.content, s.next, Posts(o, doc), true),
      s.ids[s.next := doc.id.value],
      s.shorts[doc.id.value := s.next],
      s.count + 1,
      WithLengths(s.lengths, s.next, LengthsOf(o, doc)),
      RaiseUpto(s.avgs, o, doc, |o.fields|, s.count),
      s.next + 1,
      WithStored(o, s.stored, s.next, doc),
      s.dirt,
      s.docs[s.next := doc])
  }

  function Removed(o: Options, s: State, doc: Doc): State
    requires doc.id.Some? && doc.id.value in s.shorts && s.count > 0
  {
    var d := s.shorts[doc.id.value];
    State(
      Apply(s.content, d, Posts(o, doc), false),
      s.ids - {d},
      s.shorts - {doc.id.value},
      s.count - 1,
      s.lengths - {d},
      LowerUpto(s.avgs, o, doc, |o.fields|, s.count),
      s.next,
      s.stored - {d},
      s.dirt,
      s.docs - {d})
  }

  /** The postings stay behind. */
  function Discarded(s: State, id: Id): State
    requires id in s.shorts && s.count > 0
  {
    var d := s.shorts[id];
    State(
      s.content,
      s.ids - {d},
      s.shorts - {id},
      s.count - 1,
      s.lengths - {d},
      LowerAll(s.avgs, LengthsIn(s.lengths, d), s.count),
      s.next,
      s.stored - {d},
      s.dirt + 1,
      s.docs - {d})
  }

  /** A vacuum that nobody interrupts. */
  function Vacuumed(s: State): State {
    s.(content := PurgeAll(s.content, s.ids.Keys), dirt := 0)
  }

  // ----- what every operation keeps -----

  lemma AddCoherent(o: Options, s: State, doc: Doc)
    requires Coherent(s) && doc.id.Some? && doc.id.value !in s.shorts
    ensures Coherent(Added(o, s, doc))
  {
    hide Tidy, Count, Apply, Posts, RaiseUpto, LengthsOf;
    ApplyCount(s.content, s.next, Posts(o, doc), true);
  }

  /** Nothing is known yet under the next short id. */
  lemma Unused(s: State)
    requires Coherent(s)
    ensures s.next !in s.ids && s.next !in s.docs && s.next !in s.lengths && s.next !in s.stored
    ensures forall t, f: FieldId :: Count(s.content, t, f, s.next) == 0
  {
    hide Tidy, Count;
  }

  lemma AddFaithful(o: Options, s: State, doc: Doc)
    requires Coherent(s) && Faithful(o, s) && doc.id.Some? && doc.id.value !in s.shorts
    ensures Faithful(o, Added(o, s, doc))
  {
    hide Coherent, Count, Apply, Posts, RaiseUpto, LengthsOf, WithStored, Occurrences;
    Unused(s);
    AddCounts(o, s, doc);
  }

  lemma AddCounts(o: Options, s: State, doc: Doc)
    requires Coherent(s)
    ensures forall t, f: FieldId, d: ShortId ::
      Count(Apply(s.content, s.next, Posts(o, doc), true), t, f, d) ==
      (if d == s.next then Occurrences(o, doc, f, t) else Count(s.content, t, f, d))
  {
    hide Count, Apply, Posts, Tidy;
    ApplyCount(s.content, s.next, Posts(o, doc), true);
    Unused(s);
  }

  /** Taking one entry out of two inverse tables. */
  lemma WithoutOne(ids: map<ShortId, Id>, shorts: map<Id, ShortId>, x: Id)
    requires x in shorts && shorts[x] in ids && |ids| == |shorts|
    ensures |ids - {shorts[x]}| == |ids| - 1 == |shorts - {x}|
  {
    assert (ids - {shorts[x]}).Keys == ids.Keys - {shorts[x]};
    assert (shorts - {x}).Keys == shorts.Keys - {x};
  }

  lemma CountPositive(s: State, x: Id)
    requires Coherent(s) && x in s.shorts
    ensures s.count > 0
  {
    hide Tidy, Count;
    WithoutOne(s.ids, s.shorts, x);
  }

  lemma RemoveCoherent(o: Options, s: State, doc: Doc)
    requires Coherent(s) && doc.id.Some? && doc.id.value in s.shorts && s.count > 0
    ensures Coherent(Removed(o, s, doc))
  {
    hide Tidy, Count, Apply, Posts, LowerUpto;
    ApplyCount(s.content, s.shorts[doc.id.value], Posts(o, doc), false);
    WithoutOne(s.ids, s.shorts, doc.id.value);
  }

  /** Removing the document that was added under this id takes exactly its postings away. */
  lemma RemoveFaithful(o: Options, s: State, doc: Doc)
    requires Coherent(s) && Faithful(o, s) && doc.id.Some? && doc.id.value in s.shorts && s.count > 0
    requires s.docs[s.shorts[doc.id.value]] == doc
    ensures Faithful(o, Removed(o, s, doc))
    ensures forall t, f :: Count(Removed(o, s, doc).content, t, f, s.shorts[doc.id.value]) == 0
  {
    hide Coherent, Count, Apply, Posts, LowerUpto, LengthsOf, Occurrences;
    Recorded(o, s, doc.id.value);
    RemoveCounts(o, s, doc, s.shorts[doc.id.value]);
  }

  lemma RemoveCounts(o: Options, s: State, doc: Doc, d: ShortId)
    requires Coherent(s) && forall t, f: FieldId :: Count(s.content, t, f, d) == Occurrences(o, doc, f, t)
    ensures forall t, f: FieldId, e: ShortId ::
      Count(Apply(s.content, d, Posts(o, doc), false), t, f, e) == (if e == d then 0 else Count(s.content, t, f, e))
  {
    hide Count, Apply, Posts, Tidy;
    ApplyCount(s.content, d, Posts(o, doc), false);
  }

  lemma DiscardKeeps(o: Options, s: State, id: Id)
    requires Coherent(s) && id in s.shorts && s.count > 0
    ensures Coherent(Discarded(s, id))
    ensures Faithful(o, s) ==> Faithful(o, Discarded(s, id))
  {
    hide *;
    DiscardCoherent(s, id);
    if Faithful(o, s) { DiscardFaithful(o, s, id); }
  }

  lemma DiscardCoherent(s: State, id: Id)
    requires Coherent(s) && id in s.shorts && s.count > 0
    ensures Coherent(Discarded(s, id))
  {
    hide Tidy, Count, LowerAll, LengthsIn;
    WithoutOne(s.ids, s.shorts, id);
  }

  lemma DiscardFaithful(o: Options, s: State, id: Id)
    requires Faithful(o, s) && id in s.shorts && s.count > 0
    ensures Faithful(o, Discarded(s, id))
  {
    hide Count, LengthsOf, LowerAll, Occurrences;
  }

  lemma VacuumKeeps(o: Options, s: State)
    requires Coherent(s)
    ensures Coherent(Vacuumed(s)) && Clean(Vacuumed(s))
    ensures Faithful(o, s) ==> Faithful(o, Vacuumed(s))
  {
    hide Tidy, Count, Posts, LengthsOf, PurgeAll;
    PurgeAllCount(s.content, s.ids.Keys);
  }

  /** Losing postings of dead documents does no harm to the tables, */
  lemma LosesCoherent(s: State, s': State)
    requires Coherent(s) && Loses(s, s')
    ensures Coherent(s')
  {
    hide Tidy, Count;
  }

  /** nor to what is known of live documents. */
  lemma LosesFaithful(o: Options, s: State, s': State)
    requires Coherent(s) && Faithful(o, s) && Loses(s, s')
    ensures Faithful(o, s')
  {
    hide Tidy, Count, LengthsOf, Occurrences;
  }

  lemma LosesNothing(s: State)
    requires Coherent(s)
    ensures Loses(s, s)
  {
  }

  lemma LosesMore(s: State, s1: State, s2: State)
    requires Loses(s, s1) && Loses(s1, s2)
    ensures Loses(s, s2)
  {
    hide Tidy, Count;
  }

  // ----- undoing -----

  /** Removing a document right after adding it restores everything except the next short id. */
  lemma AddRemove(o: Options, s: State, doc: Doc)
    requires Coherent(s) && doc.id.Some? && doc.id.value !in s.shorts
    ensures var s' := Removed(o, Added(o, s, doc), doc); s' == s.(next := s.next + 1, avgs := s'.avgs)
  {
    hide Coherent, Tidy, Count, Apply, Posts, LengthsOf, LowerUpto, RaiseUpto, WithLengths, WithStored;
    Unused(s);
    TidyOf(s);
    AddThenRemove(s.content, s.next, Posts(o, doc));
    Back(s.ids, s.next, doc.id.value);
    Back(s.shorts, doc.id.value, s.next);
    Back(s.docs, s.next, doc);
    LengthsBack(s.lengths, s.next, LengthsOf(o, doc));
    StoredBack(o, s.stored, s.next, doc);
  }

  lemma TidyOf(s: State)
    requires Coherent(s)
    ensures Tidy(s.content)
  {
  }

  lemma Back<K, V>(m: map<K, V>, k: K, v: V)
    requires k !in m
    ensures m[k := v] - {k} == m
  {
  }

  lemma LengthsBack(fl: FieldLengths, d: ShortId, ls: Lengths)
    requires d !in fl
    ensures WithLengths(fl, d, ls) - {d} == fl
  {
  }

  lemma StoredBack(o: Options, stored: map<ShortId, map<string, string>>, d: ShortId, doc: Doc)
    requires d !in stored
    ensures WithStored(o, stored, d, doc) - {d} == stored
  {
  }

  /** The averages come back, too, unless the index was empty and had kept an old average
      of a field that the document has. */
  lemma AddRemoveAverage(o: Options, s: State, doc: Doc, f: FieldId)
    requires doc.id.Some? && DistinctNames(o.fields) && f < |o.fields|
    ensures Avg(Removed(o, Added(o, s, doc), doc).avgs, f) == Avg(s.avgs, f) <==>
      o.fields[f] !in doc.texts || s.count > 0 || Avg(s.avgs, f) == 0.0
  {
    hide Apply, Posts, LengthsOf, LowerUpto, RaiseUpto, Length, RaiseBy, LowerBy;
    RaiseAvg(s.avgs, o, doc, |o.fields|, s.count, f);
    LowerAvg(RaiseUpto(s.avgs, o, doc, |o.fields|, s.count), o, doc, |o.fields|, s.count + 1, f);
    if o.fields[f] in doc.texts {
      UpAndDown(Avg(s.avgs, f), s.count, Length(o, doc, o.fields[f]));
    }
  }

  lemma UpAndDown(avg: real, count: nat, n: nat)
    ensures LowerBy(RaiseBy(avg, count, n), count + 1, n) == if count == 0 then 0.0 else avg
  {
    if count > 0 {
      RaiseReal(avg, count, n);
      assert avg * count as real / count as real == avg;
    }
  }

  /** Discarding a document and vacuuming comes to the same as removing it (and vacuuming the rest). */
  lemma DiscardVacuum(o: Options, s: State, doc: Doc)
    requires Coherent(s) && Faithful(o, s) && doc.id.Some? && doc.id.value in s.shorts && s.count > 0
    requires s.docs[s.shorts[doc.id.value]] == doc
    ensures var s', r := Vacuumed(Discarded(s, doc.id.value)), Removed(o, s, doc);
      && s' == Vacuumed(r).(avgs := s'.avgs)
      && (Clean(s) ==> s'.content == r.content)
      && (DistinctNames(o.fields) ==> forall f :: 0 <= f < |o.fields| ==> Avg(s'.avgs, f) == Avg(r.avgs, f))
  {
    hide Tidy, Count, Apply, Posts, LengthsOf, LengthsIn, LowerUpto, PurgeAll, LowerAll, Coherent, Faithful, Clean;
    var d := s.shorts[doc.id.value];
    WasRecorded(o, s, doc.id.value);
    PurgedAlike(o, s, doc, d);
    assert (s.ids - {d}).Keys == s.ids.Keys - {d};
    forall f: nat | DistinctNames(o.fields) && f < |o.fields|
      ensures Avg(LowerAll(s.avgs, LengthsIn(s.lengths, d), s.count), f) == Avg(LowerUpto(s.avgs, o, doc, |o.fields|, s.count), f)
    {
      SameLower(s.avgs, o, doc, s.count, f);
    }
  }

  lemma WasRecorded(o: Options, s: State, id: Id)
    requires Coherent(s) && Faithful(o, s) && id in s.shorts
    ensures var d := s.shorts[id]; d in s.docs && LengthsIn(s.lengths, d) == LengthsOf(o, s.docs[d])
  {
    hide Tidy, Count, LengthsIn, LengthsOf, Occurrences;
  }

  lemma PurgedAlike(o: Options, s: State, doc: Doc, d: ShortId)
    requires Coherent(s) && Faithful(o, s) && d in s.docs && s.docs[d] == doc
    ensures var c := Apply(s.content, d, Posts(o, doc), false);
      && PurgeAll(s.content, s.ids.Keys - {d}) == PurgeAll(c, s.ids.Keys - {d})
      && (Clean(s) ==> PurgeAll(s.content, s.ids.Keys - {d}) == c)
  {
    hide Tidy, Count, Apply, Posts, PurgeAll, LengthsOf;
    PurgeIsRemove(s.content, d, Posts(o, doc), s.ids.Keys);
    if Clean(s) { NonePositive(s); }
  }

  lemma NonePositive(s: State)
    requires Clean(s)
    ensures forall t, f, d' :: d' !in s.ids.Keys ==> Count(s.content, t, f, d') == 0
  {
    hide Count;
  }

  // ----- averages -----

  ghost predicate TrueAt(s: State, f: FieldId) {
    TrueAverage(s.avgs, s.lengths, s.count, s.next, f)
  }

  lemma TotalWith(fl: FieldLengths, d: ShortId, ls: Lengths, f: FieldId, n: nat)
    ensures d !in fl ==> Total(WithLengths(fl, d, ls), f, n) == Total(fl[d := ls], f, n)
  {
    if d !in fl { TotalElsewhere(WithLengths(fl, d, ls), fl[d := ls], f, n); }
  }

  /** Adding keeps the average of a field true exactly if the document has the field or the average is zero. */
  lemma AddTrue(o: Options, s: State, doc: Doc, f: FieldId)
    requires Coherent(s) && doc.id.Some? && doc.id.value !in s.shorts
    requires DistinctNames(o.fields) && f < |o.fields| && TrueAt(s, f)
    ensures TrueAt(Added(o, s, doc), f) <==> o.fields[f] in doc.texts || Avg(s.avgs, f) == 0.0
  {
    hide Coherent, Apply, Posts, LengthsOf, RaiseUpto, Total, Avg, WithLengths, WithStored;
    Unused(s);
    TotalWith(s.lengths, s.next, LengthsOf(o, doc), f, s.next + 1);
    AddAverage(s.avgs, o, doc, s.lengths, s.count, s.next, f);
  }

  lemma Recorded(o: Options, s: State, id: Id)
    requires Coherent(s) && Faithful(o, s) && id in s.shorts
    ensures var d := s.shorts[id];
      d in s.ids && d < s.next && d in s.docs && s.docs[d].id == Some(id) && LengthsIn(s.lengths, d) == LengthsOf(o, s.docs[d])
  {
    hide Tidy, Count;
  }

  /** The same holds for taking a document away, */
  lemma RemoveTrue(o: Options, s: State, doc: Doc, f: FieldId)
    requires Coherent(s) && Faithful(o, s) && doc.id.Some? && doc.id.value in s.shorts && s.count > 0
    requires s.docs[s.shorts[doc.id.value]] == doc
    requires DistinctNames(o.fields) && f < |o.fields| && TrueAt(s, f)
    ensures TrueAt(Removed(o, s, doc), f) <==> o.fields[f] in doc.texts || Avg(s.avgs, f) == 0.0
  {
    hide Coherent, Faithful, Apply, Posts, LengthsOf, LowerUpto, Total, Avg;
    var d := s.shorts[doc.id.value];
    Recorded(o, s, doc.id.value);
    var fl := s.lengths[d := LengthsOf(o, doc)];
    TotalElsewhere(s.lengths, fl, f, s.next);
    assert fl - {d} == s.lengths - {d};
    if s.count == 1 {
      OnlyDoc(s, d);
    }
    RemoveAverage(s.avgs, o, doc, fl, s.count, d, s.next, f);
  }

  lemma OnlyDoc(s: State, d: ShortId)
    requires Coherent(s) && s.count == 1 && d in s.ids
    ensures forall e, f :: e != d ==> LengthIn(s.lengths, e, f) == 0
  {
    hide Tidy, Count;
    assert s.ids.Keys == {d} + (s.ids.Keys - {d});
    assert |s.ids.Keys - {d}| == 0;
  }

  /** by `discard`, too. */
  lemma DiscardTrue(o: Options, s: State, id: Id, f: FieldId)
    requires Coherent(s) && Faithful(o, s) && id in s.shorts && s.count > 0
    requires DistinctNames(o.fields) && f < |o.fields| && TrueAt(s, f)
    ensures TrueAt(Discarded(s, id), f) <==> o.fields[f] in s.docs[s.shorts[id]].texts || Avg(s.avgs, f) == 0.0
  {
    hide Coherent, Faithful, Apply, Posts, LengthsOf, LowerUpto, LowerAll, Total, Avg;
    Recorded(o, s, id);
    var doc := s.docs[s.shorts[id]];
    RemoveTrue(o, s, doc, f);
    SameLower(s.avgs, o, doc, s.count, f);
  }

  // ----- whole runs -----

  datatype Op = Add(doc: Doc) | Remove(doc: Doc) | Discard(id: Id) | Vacuum

  /** One call; a call that fails changes nothing. */
  function Do(o: Options, s: State, op: Op): State {
    match op
    case Add(doc) => if doc.id.None? || doc.id.value in s.shorts then s else Added(o, s, doc)
    case Remove(doc) => if doc.id.None? || doc.id.value !in s.shorts || s.count == 0 then s else Removed(o, s, doc)
    case Discard(id) => if id !in s.shorts || s.count == 0 then s else Discarded(s, id)
    case Vacuum => Vacuumed(s)
  }

  function Run(o: Options, ops: seq<Op>): State {
    if ops == [] then EMPTY else Do(o, Run(o, ops[..|ops| - 1]), ops[|ops| - 1])
  }

  /** `remove` is given the document as it was added. */
  ghost predicate Unchanged(s: State, op: Op) {
    op.Remove? && op.doc.id.Some? && op.doc.id.value in s.shorts ==>
      var d := s.shorts[op.doc.id.value];
      d in s.docs && s.docs[d] == op.doc
  }

  ghost predicate Honest(o: Options, ops: seq<Op>) {
    forall i :: 0 <= i < |ops| ==> Unchanged(Run(o, ops[..i]), ops[i])
  }

  lemma DoKeeps(o: Options, s: State, op: Op)
    requires Coherent(s)
    ensures Coherent(Do(o, s, op))
    ensures Faithful(o, s) && Unchanged(s, op) ==> Faithful(o, Do(o, s, op))
  {
    hide Coherent, Faithful, Added, Removed, Discarded, Vacuumed;
    match op
    case Add(doc) =>
      if doc.id.Some? && doc.id.value !in s.shorts {
        AddCoherent(o, s, doc);
        if Faithful(o, s) { AddFaithful(o, s, doc); }
      }
    case Remove(doc) =>
      if doc.id.Some? && doc.id.value in s.shorts {
        CountPositive(s, doc.id.value);
        RemoveCoherent(o, s, doc);
        if Faithful(o, s) && Unchanged(s, op) { RemoveFaithful(o, s, doc); }
      }
    case Discard(id) =>
      if id in s.shorts {
        CountPositive(s, id);
        DiscardKeeps(o, s, id);
      }
    case Vacuum => VacuumKeeps(o, s);
  }

  lemma HonestInit(o: Options, ops: seq<Op>)
    requires Honest(o, ops) && ops != []
    ensures Honest(o, ops[..|ops| - 1]) && Unchanged(Run(o, ops[..|ops| - 1]), ops[|ops| - 1])
  {
    hide Run, Unchanged;
    var l := |ops| - 1;
    forall i | 0 <= i < l ensures ops[..l][..i] == ops[..i] {
    }
  }

  /** Conservation: after any run, the id tables are inverse with `count` entries, and, provided
      documents were removed as they were added, live postings count occurrences. */
  lemma {:induction false} RunKeeps(o: Options, ops: seq<Op>)
    ensures Coherent(Run(o, ops))
    ensures Honest(o, ops) ==> Faithful(o, Run(o, ops))
  {
    if ops != [] {
      hide Coherent, Faithful, Honest, Unchanged, Do;
      var l := |ops| - 1;
      RunKeeps(o, ops[..l]);
      DoKeeps(o, Run(o, ops[..l]), ops[l]);
      if Honest(o, ops) { HonestInit(o, ops); }
    } else {
      NothingFaithful(o);
    }
  }

  lemma NothingFaithful(o: Options)
    ensures Coherent(EMPTY) && Faithful(o, EMPTY)
  {
  }

  ghost predicate Complete(o: Options, ops: seq<Op>) {
    forall i :: 0 <= i < |ops| && ops[i].Add? ==> forall f :: 0 <= f < |o.fields| ==> o.fields[f] in ops[i].doc.texts
  }

  ghost predicate AllComplete(o: Options, s: State) {
    forall d, f :: d in s.docs && 0 <= f < |o.fields| ==> o.fields[f] in s.docs[d].texts
  }

  lemma DoTrue(o: Options, s: State, op: Op, f: FieldId)
    requires Coherent(s) && Faithful(o, s) && Unchanged(s, op) && AllComplete(o, s)
    requires op.Add? ==> forall f :: 0 <= f < |o.fields| ==> o.fields[f] in op.doc.texts
    requires DistinctNames(o.fields) && f < |o.fields| && TrueAt(s, f)
    ensures TrueAt(Do(o, s, op), f)
  {
    hide Faithful, TrueAt, Tidy, Count, Apply, Posts, LengthsOf, LowerUpto, LowerAll, Avg, Added, Removed, Discarded;
    match op
    case Add(doc) =>
      if doc.id.Some? && doc.id.value !in s.shorts { AddTrue(o, s, doc, f); }
    case Remove(doc) =>
      if doc.id.Some? && doc.id.value in s.shorts && s.count > 0 { RemoveTrue(o, s, doc, f); }
    case Discard(id) =>
      if id in s.shorts && s.count > 0 { DiscardTrue(o, s, id, f); }
    case Vacuum => VacuumTrue(s, f);
  }

  lemma VacuumTrue(s: State, f: FieldId)
    requires TrueAt(s, f)
    ensures TrueAt(Vacuumed(s), f)
  {
  }

  lemma DoComplete(o: Options, s: State, op: Op)
    requires AllComplete(o, s) && (op.Add? ==> forall f :: 0 <= f < |o.fields| ==> o.fields[f] in op.doc.texts)
    ensures AllComplete(o, Do(o, s, op))
  {
    hide Apply, Posts, LengthsOf, LowerUpto, LowerAll, PurgeAll, RaiseUpto;
  }

  /** If all documents have all fields, average times count is the total length throughout. */
  lemma {:induction false} RunTrue(o: Options, ops: seq<Op>, f: FieldId)
    requires DistinctNames(o.fields) && f < |o.fields| && Honest(o, ops) && Complete(o, ops)
    ensures TrueAt(Run(o, ops), f) && AllComplete(o, Run(o, ops))
  {
    if ops != [] {
      hide Coherent, Faithful, Honest, Unchanged, Do, TrueAt, AllComplete;
      var l := |ops| - 1;
      HonestInit(o, ops);
      RunTrue(o, ops[..l], f);
      RunKeeps(o, ops[..l]);
      DoTrue(o, Run(o, ops[..l]), ops[l], f);
      DoComplete(o, Run(o, ops[..l]), ops[l]);
    }
  }
}

/** Saving the index as a plain object and reading it back. */
module SearchStore {
  import opened JsMaps
  import opened RadixTree
  import opened RadixEntries
  import opened RadixMaps
  import opened RadixIterators
  import opened Postings
  import opened SearchDocs
  import opened SearchState
  import opened SearchIndex

  // ----- numbers as property names -----

  function Digit(n: nat): char
    requires n < 10
  {
    "0123456789"[n]
  }

  function Dec(n: nat): (s: string)
    ensures s != ""
  {
    if n < 10 then [Digit(n)] else Dec(n / 10) + [Digit(n % 10)]
  }

  /** `parseInt(s, 10)` for a string of digits. */
  function ParseInt(s: string): nat {
    if s == "" then 0 else ParseInt(s[..|s| - 1]) * 10 + DigitValue(s[|s| - 1])
  }

  function DigitValue(c: char): nat {
    if '0' <= c <= '9' then c as nat - '0' as nat else 0
  }

  lemma {:induction false} ParseDec(n: nat)
    ensures ParseInt(Dec(n)) == n
  {
    if n < 10 {
      assert Dec(n)[..0] == "";
    } else {
      ParseDec(n / 10);
      assert Dec(n)[..|Dec(n)| - 1] == Dec(n / 10);
    }
  }

  /** A property name that is a number written in the usual way. */
  predicate Numeral(s: string) {
    Dec(ParseInt(s)) == s
  }

  lemma DecNumeral(n: nat)
    ensures Numeral(Dec(n))
  {
    ParseDec(n);
  }

  /** `Object.fromEntries` for a `Map` with numeric keys. */
  function ToObject<X>(m: map<nat, X>): (o: map<string, X>)
    ensures forall k :: k in o <==> Numeral(k) && ParseInt(k) in m
    ensures forall k :: k in o ==> o[k] == m[ParseInt(k)]
  {
    var ks := set d | d in m :: Dec(d);
    assert forall k :: k in ks <==> Numeral(k) && ParseInt(k) in m by {
      forall k ensures k in ks <==> Numeral(k) && ParseInt(k) in m {
        if k in ks {
          var d :| d in m && Dec(d) == k;
          ParseDec(d);
        }
      }
    }
    map k | k in ks :: m[ParseInt(k)]
  }

  /** Back to a `Map` with numeric keys. */
  function ToMap<X>(o: map<string, X>): (m: map<nat, X>)
    ensures forall d :: d in m <==> Dec(d) in o
    ensures forall d :: d in m ==> m[d] == o[Dec(d)]
  {
    var ds := set k | k in o :: ParseInt(k);
    assert forall d :: Dec(d) in o ==> d in ds by {
      forall d: nat | Dec(d) in o ensures d in ds { ParseDec(d); }
    }
    map d | d in ds && Dec(d) in o :: o[Dec(d)]
  }

  /** `It`. */
  method FromObject<X>(o: map<string, X>) returns (m: map<nat, X>)
    requires forall k :: k in o ==> Numeral(k)
    ensures m == ToMap(o)
  {
    m := map[];
    var ks := o.Keys;
    while ks != {}
      invariant ks <= o.Keys
      invariant forall d :: d in m <==> Dec(d) in o && Dec(d) !in ks
      invariant forall d :: d in m ==> m[d] == o[Dec(d)]
    {
      var k :| k in ks;
      m := m[ParseInt(k) := o[k]];
      forall d ensures d == ParseInt(k) <==> Dec(d) == k { ParseDec(d); }
      ks := ks - {k};
    }
    assert m.Keys == ToMap(o).Keys;
  }

  lemma ThereAndBack<X>(m: map<nat, X>)
    ensures ToMap(ToObject(m)) == m
    ensures forall k :: k in ToObject(m) ==> Numeral(k)
  {
    forall d: nat ensures ParseInt(Dec(d)) == d && Numeral(Dec(d)) {
      ParseDec(d);
    }
    assert ToMap(ToObject(m)).Keys == m.Keys;
  }

  // ----- the saved form -----

  /** The counts of a field; version 1 wrapped them in an object with a property `ds`. */
  datatype SavedField = Plain(counts: map<string, nat>) | Wrapped(ds: map<string, nat>)

  type SavedTerm = map<string, SavedField>

  datatype Saved = Saved(
    documentCount: nat,
    nextId: ShortId,
    documentIds: map<string, Id>,
    fieldIds: map<string, FieldId>,
    fieldLength: map<string, Lengths>,
    averageFieldLength: Averages,
    storedFields: map<string, map<string, string>>,
    dirtCount: nat,
    index: seq<(string, SavedTerm)>,
    serializationVersion: nat)

  function SaveTerm(p: Posting, version: nat): SavedTerm {
    var o := ToObject(p);
    map k | k in o :: if version == 1 then Wrapped(ToObject(o[k])) else Plain(ToObject(o[k]))
  }

  /** `saved` is what saving an index in state `s` gives, in the form of the given version. The
      order of the terms is the iterator's. */
  ghost predicate Describes(saved: Saved, s: State, fields: seq<string>, version: nat) {
    && saved.documentCount == s.count && saved.nextId == s.next && saved.dirtCount == s.dirt
    && saved.documentIds == ToObject(s.ids) && saved.fieldIds == FieldIds(fields)
    && saved.fieldLength == ToObject(s.lengths) && saved.averageFieldLength == s.avgs
    && saved.storedFields == ToObject(s.stored) && saved.serializationVersion == version
    && ListsTerms(saved.index, s.content, version)
  }

  ghost predicate ListsTerms(es: seq<(string, SavedTerm)>, c: Index, version: nat) {
    && DistinctKeys(es)
    && (forall i :: 0 <= i < |es| ==> es[i].0 in c && es[i].1 == SaveTerm(c[es[i].0], version))
    && (forall t :: t in c ==> exists i :: 0 <= i < |es| && es[i].0 == t)
  }

  // ----- saving -----

  ghost function SaveAll(es: seq<(string, Posting)>): (r: seq<(string, SavedTerm)>)
    ensures |r| == |es|
    ensures forall i :: 0 <= i < |es| ==> r[i] == (es[i].0, SaveTerm(es[i].1, 2))
  {
    if es == [] then [] else SaveAll(es[..|es| - 1]) + [(es[|es| - 1].0, SaveTerm(es[|es| - 1].1, 2))]
  }

  lemma SavedLists(c: Index, es: seq<(string, Posting)>)
    requires ListsPrefix(c, "", es)
    ensures ListsTerms(SaveAll(es), c, 2)
  {
    hide SaveTerm;
    forall t | t in c ensures exists i :: 0 <= i < |SaveAll(es)| && SaveAll(es)[i].0 == t {
      assert "" <= t;
      var i :| 0 <= i < |es| && es[i].0 == t;
      assert SaveAll(es)[i].0 == t;
    }
  }

  lemma SaveMore(es: seq<(string, Posting)>, i: nat)
    requires i < |es|
    ensures SaveAll(es[..i + 1]) == SaveAll(es[..i]) + [(es[i].0, SaveTerm(es[i].1, 2))]
  {
    hide SaveTerm;
    assert es[..i + 1][..i] == es[..i];
  }

  /** `toJSON`. */
  method ToJSON(m: MiniSearch) returns (saved: Saved)
    requires m.Valid() && m.index.Valid()
    modifies m.index`store, m.index`next
    ensures m.Valid() && m.index.Valid() && m.Value() == old(m.Value())
    ensures Describes(saved, m.Value(), m.options.fields, 2)
  {
    hide *;
    m.Parts();
    m.Fields();
    ghost var s := m.Value();
    var terms: seq<(string, SavedTerm)> := [];
    var it := AtPrefix(m.index, "");
    m.Fields();
    m.Whole();
    ghost var all := it.Future();
    ghost var i := 0;
    assert all[..0] == [];
    NothingSaved();
    while true
      invariant m.index == old(m.index) && m.index.Valid() && it.base == m.index && it.Valid() && fresh(it)
      invariant m.Valid() && m.Value() == s && m.index.Content() == s.content
      invariant i <= |all| && it.Future() == all[i..] && terms == SaveAll(all[..i])
      decreases |all| - i
    {
      var e := it.Next();
      if e == None {
        break;
      }
      var (t, p) := e.value;
      SaveMore(all, i);
      terms := terms + [(t, SaveTerm(p, 2))];
      i := i + 1;
    }
    assert all[..i] == all;
    SavedLists(m.index.Content(), all);
    saved := Saved(m.documentCount, m.nextId, ToObject(m.documentIds), m.fieldIds, ToObject(m.fieldLength), m.avgFieldLength,
      ToObject(m.storedFields), m.dirtCount, terms, 2);
    m.Parts();
    m.Fields();
    IsDescribed(saved, m.Value(), m.options.fields);
  }

  lemma NothingSaved()
    ensures SaveAll([]) == []
  {
  }

  lemma IsDescribed(saved: Saved, s: State, fields: seq<string>)
    requires saved == Saved(s.count, s.next, ToObject(s.ids), FieldIds(fields), ToObject(s.lengths), s.avgs, ToObject(s.stored),
      s.dirt, saved.index, 2)
    requires ListsTerms(saved.index, s.content, 2)
    ensures Describes(saved, s, fields, 2)
  {
    hide ToObject, ListsTerms;
  }

  // ----- loading -----

  function CountsOf(f: SavedField): map<string, nat> {
    match f
    case Plain(counts) => counts
    case Wrapped(ds) => ds
  }

  /** A saved object of either version has its own shape. */
  ghost predicate Shaped(saved: Saved) {
    && (forall k :: k in saved.documentIds || k in saved.fieldLength || k in saved.storedFields ==> Numeral(k))
    && (forall i :: 0 <= i < |saved.index| ==> ShapedTerm(saved.index[i].1, saved.serializationVersion))
  }

  ghost predicate ShapedTerm(o: SavedTerm, version: nat) {
    forall k :: k in o ==> Numeral(k) && (version == 1 <==> o[k].Wrapped?) && (forall d :: d in CountsOf(o[k]) ==> Numeral(d))
  }

  ghost function TermOf(o: SavedTerm): Posting {
    var fs := ToMap(o);
    map f | f in fs :: ToMap(CountsOf(fs[f]))
  }

  /** One term of the saved form. */
  method LoadTerm(o: SavedTerm, version: nat) returns (p: Posting)
    requires ShapedTerm(o, version)
    ensures p == TermOf(o)
  {
    hide Dec, ParseInt, ToMap, TermOf, Numeral;
    p := map[];
    var ks := o.Keys;
    while ks != {}
      invariant ks <= o.Keys
      invariant forall f :: f in p <==> Dec(f) in o && Dec(f) !in ks
      invariant forall f :: f in p ==> p[f] == ToMap(CountsOf(o[Dec(f)]))
    {
      var k :| k in ks;
      OneName(k);
      var counts := FromObject(if version == 1 then o[k].ds else o[k].counts);
      p := p[ParseInt(k) := counts];
      ks := ks - {k};
    }
    IsTermOf(o, p);
  }

  lemma OneName(k: string)
    ensures Numeral(k) ==> forall d :: d == ParseInt(k) <==> Dec(d) == k
  {
    forall d ensures Dec(d) == k ==> d == ParseInt(k) { ParseDec(d); }
  }

  lemma IsTermOf(o: SavedTerm, p: Posting)
    requires forall f :: f in p <==> Dec(f) in o
    requires forall f :: f in p ==> p[f] == ToMap(CountsOf(o[Dec(f)]))
    ensures p == TermOf(o)
  {
    hide Dec;
    assert p.Keys == ToMap(o).Keys;
  }

  lemma SavedFieldOf(p: Posting, version: nat, f: FieldId)
    requires f in p
    ensures Dec(f) in SaveTerm(p, version) && CountsOf(SaveTerm(p, version)[Dec(f)]) == ToObject(p[f])
  {
    hide ToObject;
    ParseDec(f);
    DecNumeral(f);
  }

  lemma SavedKeys(p: Posting, version: nat)
    ensures forall k :: k in SaveTerm(p, version) <==> k in ToObject(p)
    ensures forall k :: k in SaveTerm(p, version) ==> (version == 1 <==> SaveTerm(p, version)[k].Wrapped?)
  {
    hide ToObject;
  }

  lemma TermBack(p: Posting, version: nat)
    ensures TermOf(SaveTerm(p, version)) == p && ShapedTerm(SaveTerm(p, version), version)
  {
    hide SaveTerm, ToObject, ToMap, Dec, ParseInt;
    var o := SaveTerm(p, version);
    SavedKeys(p, version);
    ThereAndBack(p);
    forall f: FieldId ensures f in p <==> Dec(f) in o {
      ParseDec(f);
      DecNumeral(f);
    }
    forall f | f in p ensures CountsOf(o[Dec(f)]) == ToObject(p[f]) && ToMap(ToObject(p[f])) == p[f] {
      SavedFieldOf(p, version, f);
      ThereAndBack(p[f]);
    }
    assert TermOf(o).Keys == p.Keys;
    forall k | k in o
      ensures forall d :: d in CountsOf(o[k]) ==> Numeral(d)
    {
      SavedFieldOf(p, version, ParseInt(k));
      ThereAndBack(p[ParseInt(k)]);
    }
  }

  /** Entering the saved terms one after the other. */
  ghost function Loaded(es: seq<(string, SavedTerm)>): Index {
    if es == [] then map[]
    else Loaded(es[..|es| - 1])[es[|es| - 1].0 := TermOf(es[|es| - 1].1)]
  }

  lemma {:induction false} LoadedAre(es: seq<(string, SavedTerm)>, t: string)
    requires DistinctKeys(es)
    ensures t in Loaded(es) <==> exists i :: 0 <= i < |es| && es[i].0 == t
    ensures forall i :: 0 <= i < |es| && es[i].0 == t ==> Loaded(es)[t] == TermOf(es[i].1)
  {
    hide TermOf;
    if es != [] {
      var l := |es| - 1;
      LoadedAre(es[..l], t);
      assert forall i :: 0 <= i < l ==> es[..l][i] == es[i];
    }
  }

  lemma ContentBack(es: seq<(string, SavedTerm)>, c: Index, version: nat)
    requires ListsTerms(es, c, version)
    ensures Loaded(es) == c
    ensures forall i :: 0 <= i < |es| ==> ShapedTerm(es[i].1, version)
  {
    hide TermOf, SaveTerm, Loaded;
    forall i | 0 <= i < |es| ensures ShapedTerm(es[i].1, version) && TermOf(es[i].1) == c[es[i].0] {
      TermBack(c[es[i].0], version);
    }
    forall t ensures (t in Loaded(es) <==> t in c) && (t in c ==> Loaded(es)[t] == c[t]) {
      LoadedAre(es, t);
    }
  }

  /** The table from ids to short ids is not saved, but made anew. */
  ghost predicate Inverse(ids: map<ShortId, Id>, shorts: map<Id, ShortId>) {
    && (forall d :: d in ids ==> ids[d] in shorts)
    && (forall x :: x in shorts ==> shorts[x] in ids && ids[shorts[x]] == x)
  }

  lemma ShortsBack(s: State, shorts: map<Id, ShortId>)
    requires Coherent(s) && Inverse(s.ids, shorts)
    ensures shorts == s.shorts
  {
    hide Tidy, Count;
    assert forall x :: x in shorts <==> x in s.shorts;
    forall x | x in shorts ensures shorts[x] == s.shorts[x] {
      assert s.ids[shorts[x]] == x;
    }
  }

  method InverseOf(ids: map<ShortId, Id>) returns (shorts: map<Id, ShortId>)
    ensures Inverse(ids, shorts)
  {
    shorts := map[];
    var ds := ids.Keys;
    while ds != {}
      invariant ds <= ids.Keys
      invariant forall d :: d in ids && d !in ds ==> ids[d] in shorts
      invariant forall x :: x in shorts ==> shorts[x] in ids && ids[shorts[x]] == x
    {
      var d :| d in ds;
      shorts := shorts[ids[d] := d];
      ds := ds - {d};
    }
  }

  /** What loading makes of a saved object. */
  ghost predicate LoadedAs(saved: Saved, s: State) {
    && s.content == Loaded(saved.index) && s.ids == ToMap(saved.documentIds) && Inverse(s.ids, s.shorts)
    && s.count == saved.documentCount && s.lengths == ToMap(saved.fieldLength) && s.avgs == saved.averageFieldLength
    && s.next == saved.nextId && s.stored == ToMap(saved.storedFields) && s.dirt == saved.dirtCount
  }

  /** The round trip: loading what was saved gives the same index, the table of ids included. */
  lemma RoundTrip(saved: Saved, s: State, s': State, fields: seq<string>, version: nat)
    requires Coherent(s) && Describes(saved, s, fields, version)
    requires LoadedAs(saved, s')
    ensures s' == s.(docs := s'.docs)
  {
    hide Coherent, ToMap, ToObject, ListsTerms, Loaded, Inverse;
    ContentBack(saved.index, s.content, version);
    ThereAndBack(s.ids);
    ThereAndBack(s.lengths);
    ThereAndBack(s.stored);
    ShortsBack(s, s'.shorts);
  }

  lemma SavedShaped(saved: Saved, s: State, fields: seq<string>, version: nat)
    requires Describes(saved, s, fields, version)
    ensures Shaped(saved)
  {
    hide ToMap, ToObject, ListsTerms, Loaded, ShapedTerm;
    ContentBack(saved.index, s.content, version);
    ThereAndBack(s.ids);
    ThereAndBack(s.lengths);
    ThereAndBack(s.stored);
  }

  lemma LoadedMore(es: seq<(string, SavedTerm)>, i: nat)
    requires i < |es|
    ensures Loaded(es[..i + 1]) == Loaded(es[..i])[es[i].0 := TermOf(es[i].1)]
  {
    assert es[..i + 1][..i] == es[..i];
  }

  /** The terms, one by one. */
  method LoadIndex(m: RadixMap<Posting>, es: seq<(string, SavedTerm)>, version: nat)
    requires m.Valid() && m.Content() == map[]
    requires forall i :: 0 <= i < |es| ==> ShapedTerm(es[i].1, version)
    modifies m
    ensures m.Valid() && m.Content() == Loaded(es)
  {
    hide *;
    NothingLoaded();
    assert es[..0] == [];
    var i := 0;
    while i < |es|
      invariant i <= |es| && m.Valid() && m.Content() == Loaded(es[..i])
    {
      var p := LoadTerm(es[i].1, version);
      LoadedMore(es, i);
      m.Set(es[i].0, p);
      i := i + 1;
    }
    assert es[..i] == es;
  }

  lemma NothingLoaded()
    ensures Loaded([]) == map[]
  {
  }

  /** `loadJS` for the options the index was made with; `None` is the error for any other version. */
  method LoadJS(saved: Saved, o: Options, ghost docs: map<ShortId, Doc>) returns (m: MiniSearch?)
    requires Shaped(saved)
    ensures m == null <==> saved.serializationVersion != 1 && saved.serializationVersion != 2
    ensures m != null ==> fresh(m) && fresh(m.index) && m.index.Valid() && m.options == o && m.fieldIds == saved.fieldIds
    ensures m != null ==> LoadedAs(saved, m.Value()) && m.docs == docs
  {
    hide *;
    if saved.serializationVersion != 1 && saved.serializationVersion != 2 { return null; }
    IsShaped(saved);
    m := new MiniSearch(o);
    NothingIn();
    m.Parts();
    m.Fields();
    LoadIndex(m.index, saved.index, saved.serializationVersion);
    Instantiate(m, saved);
    LoadTables(m, saved);
    m.docs := docs;
    m.Fields();
    IsLoaded(saved, m.Value());
  }

  lemma NothingIn()
    ensures EMPTY.content == map[]
  {
  }

  lemma IsShaped(saved: Saved)
    requires Shaped(saved)
    ensures forall k :: k in saved.documentIds || k in saved.fieldLength || k in saved.storedFields ==> Numeral(k)
    ensures forall i :: 0 <= i < |saved.index| ==> ShapedTerm(saved.index[i].1, saved.serializationVersion)
  {
    hide ShapedTerm, Numeral;
  }

  lemma IsLoaded(saved: Saved, s: State)
    requires s.content == Loaded(saved.index) && s.ids == ToMap(saved.documentIds) && Inverse(s.ids, s.shorts)
    requires s.count == saved.documentCount && s.lengths == ToMap(saved.fieldLength) && s.avgs == saved.averageFieldLength
    requires s.next == saved.nextId && s.stored == ToMap(saved.storedFields) && s.dirt == saved.dirtCount
    ensures LoadedAs(saved, s)
  {
  }

  /** The numbers, and what is taken over as it is. */
  method Instantiate(m: MiniSearch, saved: Saved)
    modifies m`documentCount, m`nextId, m`fieldIds, m`avgFieldLength, m`dirtCount
    ensures m.documentCount == saved.documentCount && m.nextId == saved.nextId && m.fieldIds == saved.fieldIds
    ensures m.avgFieldLength == saved.averageFieldLength && m.dirtCount == saved.dirtCount
  {
    m.documentCount := saved.documentCount;
    m.nextId := saved.nextId;
    m.fieldIds := saved.fieldIds;
    m.avgFieldLength := saved.averageFieldLength;
    m.dirtCount := saved.dirtCount;
  }

  method LoadTables(m: MiniSearch, saved: Saved)
    requires forall k :: k in saved.documentIds || k in saved.fieldLength || k in saved.storedFields ==> Numeral(k)
    modifies m`documentIds, m`fieldLength, m`storedFields, m`idToShortId
    ensures m.documentIds == ToMap(saved.documentIds) && m.fieldLength == ToMap(saved.fieldLength)
    ensures m.storedFields == ToMap(saved.storedFields) && Inverse(m.documentIds, m.idToShortId)
  {
    hide *;
    m.documentIds := FromObject(saved.documentIds);
    m.fieldLength := FromObject(saved.fieldLength);
    m.storedFields := FromObject(saved.storedFields);
    m.idToShortId := InverseOf(m.documentIds);
  }

  /** Saving and loading: the copy is a valid index of its own with the very same value, and the original is unchanged. */
  method SaveAndLoad(m: MiniSearch) returns (copy: MiniSearch)
    requires m.Valid() && m.index.Valid()
    modifies m.index`store, m.index`next
    ensures m.Valid() && m.index.Valid() && m.Value() == old(m.Value())
    ensures fresh(copy) && fresh(copy.index) && copy.Valid() && copy.index.Valid()
    ensures copy.options == m.options && copy.Value() == m.Value()
  {
    hide *;
    var saved := ToJSON(m);
    ghost var s := m.Value();
    m.Parts();
    m.Fields();
    SavedShaped(saved, s, m.options.fields, 2);
    var loaded := LoadJS(saved, m.options, m.docs);
    VersionIs(saved, s, m.options.fields);
    copy := loaded;
    copy.Fields();
    m.Fields();
    RoundTrip(saved, s, copy.Value(), m.options.fields, 2);
    copy.Whole();
  }

  lemma VersionIs(saved: Saved, s: State, fields: seq<string>)
    requires Describes(saved, s, fields, 2)
    ensures saved.serializationVersion == 2 && saved.fieldIds == FieldIds(fields)
  {
  }
}

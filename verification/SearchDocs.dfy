/** Documents, the options that say how they are taken apart, and the exact
    arithmetic of average field lengths. */
module SearchDocs {
  import opened JsMaps
  import opened Postings

  type Id = string

  /** What `extractField` finds: an id, if there is one, and the texts of some fields. */
  datatype Doc = Doc(id: Option<Id>, texts: map<string, string>)

  /** What `processTerm` may return: something falsy, a term, or a list of terms. */
  datatype Processed = Nothing | Single(term: string) | Several(terms: seq<string>)

  datatype Options = Options(
    fields: seq<string>,
    storeFields: seq<string>,
    tokenize: (string, string) -> seq<string>,
    process: (string, string) -> Processed)

  /** `addFields`: a name listed twice keeps its last position. */
  function FieldIds(fields: seq<string>): (ids: map<string, FieldId>)
    ensures forall x :: x in ids <==> x in fields
    ensures forall x :: x in ids ==> ids[x] < |fields| && fields[ids[x]] == x
  {
    if fields == [] then map[]
    else
      var l := |fields| - 1;
      assert fields == fields[..l] + [fields[l]];
      FieldIds(fields[..l])[fields[l] := l]
  }

  /** The last position of a name. */
  ghost predicate LastAt(fields: seq<string>, x: string, i: nat) {
    i < |fields| && fields[i] == x && forall j :: i < j < |fields| ==> fields[j] != x
  }

  lemma {:induction false} LastPositions(fields: seq<string>, x: string)
    requires x in fields
    ensures LastAt(fields, x, FieldIds(fields)[x])
    decreases |fields|
  {
    var l := |fields| - 1;
    assert fields == fields[..l] + [fields[l]];
    if fields[l] != x { LastPositions(fields[..l], x); }
  }

  ghost predicate DistinctNames(fields: seq<string>) {
    forall i, j :: 0 <= i < j < |fields| ==> fields[i] != fields[j]
  }

  // ----- the terms of a document -----

  /** The terms that are indexed for one token; an empty single term is not. */
  function TermsOf(p: Processed): seq<string> {
    match p
    case Nothing => []
    case Single(e) => if e == "" then [] else [e]
    case Several(es) => es
  }

  function Tag(f: FieldId, terms: seq<string>): seq<(FieldId, string)> {
    if terms == [] then [] else Tag(f, terms[..|terms| - 1]) + [(f, terms[|terms| - 1])]
  }

  function TokenPosts(o: Options, x: string, f: FieldId, tokens: seq<string>): seq<(FieldId, string)> {
    if tokens == [] then []
    else TokenPosts(o, x, f, tokens[..|tokens| - 1]) + Tag(f, TermsOf(o.process(tokens[|tokens| - 1], x)))
  }

  function FieldPosts(o: Options, doc: Doc, x: string): seq<(FieldId, string)>
    requires x in o.fields
  {
    if x in doc.texts then TokenPosts(o, x, FieldIds(o.fields)[x], o.tokenize(doc.texts[x], x)) else []
  }

  /** Every term of the first `i` fields, once per occurrence. */
  function PostsUpto(o: Options, doc: Doc, i: nat): seq<(FieldId, string)>
    requires i <= |o.fields|
  {
    if i == 0 then [] else PostsUpto(o, doc, i - 1) + FieldPosts(o, doc, o.fields[i - 1])
  }

  function Posts(o: Options, doc: Doc): seq<(FieldId, string)> {
    PostsUpto(o, doc, |o.fields|)
  }

  /** How often term `t` occurs in field `f` of the document. */
  function Occurrences(o: Options, doc: Doc, f: FieldId, t: string): nat {
    multiset(Posts(o, doc))[(f, t)]
  }

  // ----- what occurrences are, token by token -----

  /** How often a token counts for term `t`: never if it is processed to something falsy or to the empty term, once if it is processed
      to `t`, and as often as `t` is in the list if it is processed to several terms. */
  function Weight(p: Processed, t: string): nat {
    match p
    case Nothing => 0
    case Single(e) => if e == t && e != "" then 1 else 0
    case Several(es) => multiset(es)[t]
  }

  function Weights(o: Options, x: string, tokens: seq<string>, t: string): nat {
    if tokens == [] then 0
    else Weights(o, x, tokens[..|tokens| - 1], t) + Weight(o.process(tokens[|tokens| - 1], x), t)
  }

  /** How often term `t` occurs in the text that the document has for the name `x`. */
  function TermCount(o: Options, doc: Doc, x: string, t: string): nat {
    if x in doc.texts then Weights(o, x, o.tokenize(doc.texts[x], x), t) else 0
  }

  lemma {:induction false} TagCount(f: FieldId, terms: seq<string>, g: FieldId, t: string)
    ensures multiset(Tag(f, terms))[(g, t)] == if g == f then multiset(terms)[t] else 0
  {
    if terms != [] {
      var l := |terms| - 1;
      TagCount(f, terms[..l], g, t);
      assert terms == terms[..l] + [terms[l]];
    }
  }

  lemma WeightIs(p: Processed, t: string)
    ensures multiset(TermsOf(p))[t] == Weight(p, t)
  {
  }

  lemma {:induction false} TokenPostsCount(o: Options, x: string, f: FieldId, tokens: seq<string>, g: FieldId, t: string)
    ensures multiset(TokenPosts(o, x, f, tokens))[(g, t)] == if g == f then Weights(o, x, tokens, t) else 0
  {
    hide TermsOf, Tag, Weight;
    if tokens != [] {
      var l := |tokens| - 1;
      TokenPostsCount(o, x, f, tokens[..l], g, t);
      TagCount(f, TermsOf(o.process(tokens[l], x)), g, t);
      WeightIs(o.process(tokens[l], x), t);
    }
  }

  lemma FieldPostsCount(o: Options, doc: Doc, x: string, f: FieldId, t: string)
    requires x in o.fields
    ensures multiset(FieldPosts(o, doc, x))[(f, t)] == if FieldIds(o.fields)[x] == f then TermCount(o, doc, x, t) else 0
  {
    hide TokenPosts, Weights, FieldIds;
    if x in doc.texts { TokenPostsCount(o, x, FieldIds(o.fields)[x], o.tokenize(doc.texts[x], x), f, t); }
  }

  /** How often the name numbered `f` is among the first `i`. */
  function Listed(fields: seq<string>, i: nat, f: FieldId): nat
    requires i <= |fields|
  {
    if f < |fields| && FieldIds(fields)[fields[f]] == f then multiset(fields[..i])[fields[f]] else 0
  }

  lemma ListedMore(fields: seq<string>, i: nat, f: FieldId)
    requires 0 < i <= |fields|
    ensures Listed(fields, i, f) == Listed(fields, i - 1, f) + if FieldIds(fields)[fields[i - 1]] == f then 1 else 0
    ensures FieldIds(fields)[fields[i - 1]] == f ==> f < |fields| && fields[f] == fields[i - 1]
  {
    hide FieldIds;
    var x := fields[i - 1];
    CountMore(fields, i);
    if FieldIds(fields)[x] == f {
      assert fields[f] == x;
    } else if f < |fields| && FieldIds(fields)[fields[f]] == f {
      assert fields[f] != x;
    }
  }

  lemma CountMore(fields: seq<string>, i: nat)
    requires 0 < i <= |fields|
    ensures forall x :: multiset(fields[..i])[x] == multiset(fields[..i - 1])[x] + if x == fields[i - 1] then 1 else 0
  {
    assert fields[..i] == fields[..i - 1] + [fields[i - 1]];
  }

  lemma {:induction false} PostsUptoCount(o: Options, doc: Doc, i: nat, f: FieldId, t: string)
    requires i <= |o.fields|
    ensures multiset(PostsUpto(o, doc, i))[(f, t)] ==
      if f < |o.fields| then Listed(o.fields, i, f) * TermCount(o, doc, o.fields[f], t) else 0
  {
    hide FieldPosts, FieldIds, TermCount, Listed;
    if i > 0 {
      var x := o.fields[i - 1];
      PostsUptoCount(o, doc, i - 1, f, t);
      FieldPostsCount(o, doc, x, f, t);
      ListedMore(o.fields, i, f);
      OnceMore(Listed(o.fields, i - 1, f), TermCount(o, doc, x, t));
    } else {
      NoneListed(o.fields, f);
    }
  }

  lemma NoneListed(fields: seq<string>, f: FieldId)
    ensures Listed(fields, 0, f) == 0
  {
  }

  lemma OnceMore(n: nat, m: nat)
    ensures (n + 1) * m == n * m + m
  {
  }

  /** The law of counting: a number is counted only as the last position of a name, and then a term occurs as often as the
      tokens of that field's text weigh, once for every time the name is listed. */
  lemma OccurrencesAre(o: Options, doc: Doc, f: FieldId, t: string)
    ensures Occurrences(o, doc, f, t) ==
      if f < |o.fields| && LastAt(o.fields, o.fields[f], f) then multiset(o.fields)[o.fields[f]] * TermCount(o, doc, o.fields[f], t)
      else 0
  {
    hide PostsUpto, TermCount, FieldIds;
    PostsUptoCount(o, doc, |o.fields|, f, t);
    assert o.fields[..|o.fields|] == o.fields;
    if f < |o.fields| { LastPositions(o.fields, o.fields[f]); }
  }

  /** So a term occurs exactly if some token of the field's text is processed to it. */
  lemma {:induction false} WeightsSome(o: Options, x: string, tokens: seq<string>, t: string)
    ensures Weights(o, x, tokens, t) > 0 <==> exists j :: 0 <= j < |tokens| && ProcessedTo(o.process(tokens[j], x), t)
  {
    if tokens != [] {
      var l := |tokens| - 1;
      WeightsSome(o, x, tokens[..l], t);
      if j :| 0 <= j < |tokens| && ProcessedTo(o.process(tokens[j], x), t) && j < l {
        assert ProcessedTo(o.process(tokens[..l][j], x), t);
      }
    }
  }

  predicate ProcessedTo(p: Processed, t: string) {
    match p
    case Nothing => false
    case Single(e) => e == t && t != ""
    case Several(es) => t in es
  }

  // ----- field lengths -----

  /** A field is as long as it has different tokens. */
  function Length(o: Options, doc: Doc, x: string): nat
    requires x in doc.texts
  {
    |set t | t in o.tokenize(doc.texts[x], x)|
  }

  type Lengths = map<FieldId, nat>

  function LengthsUpto(o: Options, doc: Doc, i: nat): Lengths
    requires i <= |o.fields|
  {
    if i == 0 then map[]
    else
      var x := o.fields[i - 1];
      if x in doc.texts then LengthsUpto(o, doc, i - 1)[FieldIds(o.fields)[x] := Length(o, doc, x)]
      else LengthsUpto(o, doc, i - 1)
  }

  function LengthsOf(o: Options, doc: Doc): Lengths {
    LengthsUpto(o, doc, |o.fields|)
  }

  lemma {:induction false} LengthsAt(o: Options, doc: Doc, i: nat, f: FieldId)
    requires i <= |o.fields|
    ensures f in LengthsUpto(o, doc, i) <==>
      exists j :: 0 <= j < i && o.fields[j] in doc.texts && FieldIds(o.fields)[o.fields[j]] == f
    ensures f in LengthsUpto(o, doc, i) ==>
      f < |o.fields| && o.fields[f] in doc.texts && LengthsUpto(o, doc, i)[f] == Length(o, doc, o.fields[f])
  {
    hide FieldIds, Length;
    if i > 0 {
      LengthsAt(o, doc, i - 1, f);
      var x := o.fields[i - 1];
      if x in doc.texts && FieldIds(o.fields)[x] == f { assert o.fields[f] == x; }
    }
  }

  /** A length is recorded for the last position of every name that the document has, and it is the number of different tokens. */
  lemma LengthsAre(o: Options, doc: Doc, f: FieldId)
    ensures f in LengthsOf(o, doc) <==> f < |o.fields| && LastAt(o.fields, o.fields[f], f) && o.fields[f] in doc.texts
    ensures f in LengthsOf(o, doc) ==>
      LengthsOf(o, doc)[f] == |set t | t in o.tokenize(doc.texts[o.fields[f]], o.fields[f])|
  {
    hide LengthsUpto, FieldIds;
    LengthsAt(o, doc, |o.fields|, f);
    if f < |o.fields| { LastPositions(o.fields, o.fields[f]); }
  }

  // ----- average field lengths, over exact numbers -----

  type Averages = map<FieldId, real>

  function Avg(a: Averages, f: FieldId): real { if f in a then a[f] else 0.0 }

  function RaiseBy(avg: real, count: nat, n: nat): real {
    (avg * count as real + n as real) / (count as real + 1.0)
  }

  function LowerBy(avg: real, count: nat, n: nat): real
    requires count > 0
  {
    if count == 1 then 0.0 else (avg * count as real - n as real) / (count as real - 1.0)
  }

  /** `addFieldLength`: one more document, after `count` others. */
  function Raise(a: Averages, f: FieldId, count: nat, n: nat): Averages {
    a[f := RaiseBy(Avg(a, f), count, n)]
  }

  /** `removeFieldLength`: one of `count` documents goes. */
  function Lower(a: Averages, f: FieldId, count: nat, n: nat): Averages
    requires count > 0
  {
    a[f := LowerBy(Avg(a, f), count, n)]
  }

  function RaiseUpto(a: Averages, o: Options, doc: Doc, i: nat, count: nat): Averages
    requires i <= |o.fields|
  {
    if i == 0 then a
    else
      var x := o.fields[i - 1];
      var b := RaiseUpto(a, o, doc, i - 1, count);
      if x in doc.texts then Raise(b, FieldIds(o.fields)[x], count, Length(o, doc, x)) else b
  }

  function LowerUpto(a: Averages, o: Options, doc: Doc, i: nat, count: nat): Averages
    requires i <= |o.fields| && count > 0
  {
    if i == 0 then a
    else
      var x := o.fields[i - 1];
      var b := LowerUpto(a, o, doc, i - 1, count);
      if x in doc.texts then Lower(b, FieldIds(o.fields)[x], count, Length(o, doc, x)) else b
  }

  /** `discard` goes by the recorded lengths instead. */
  function LowerAll(a: Averages, ls: Lengths, count: nat): Averages
    requires count > 0
  {
    map f | f in a.Keys + ls.Keys :: if f in ls then Avg(Lower(a, f, count, ls[f]), f) else a[f]
  }

  lemma FieldIdOf(fields: seq<string>, i: nat)
    requires DistinctNames(fields) && i < |fields|
    ensures FieldIds(fields)[fields[i]] == i
  {
  }

  /** Each average depends on its own past only. */
  lemma OwnAverage(a: Averages, b: Averages, g: FieldId, f: FieldId, count: nat, n: nat)
    requires Avg(a, f) == Avg(b, f)
    ensures Avg(Raise(b, g, count, n), f) == if g == f then Avg(Raise(a, f, count, n), f) else Avg(a, f)
    ensures count > 0 ==> Avg(Lower(b, g, count, n), f) == if g == f then Avg(Lower(a, f, count, n), f) else Avg(a, f)
  {
    hide RaiseBy, LowerBy;
  }

  lemma {:induction false} RaiseAvg(a: Averages, o: Options, doc: Doc, i: nat, count: nat, f: FieldId)
    requires i <= |o.fields| && DistinctNames(o.fields) && f < |o.fields|
    ensures Avg(RaiseUpto(a, o, doc, i, count), f) ==
      if f < i && o.fields[f] in doc.texts then Avg(Raise(a, f, count, Length(o, doc, o.fields[f])), f) else Avg(a, f)
  {
    hide Length, FieldIds, Raise, Lower, Avg;
    if i > 0 {
      RaiseAvg(a, o, doc, i - 1, count, f);
      FieldIdOf(o.fields, i - 1);
      var x := o.fields[i - 1];
      var b := RaiseUpto(a, o, doc, i - 1, count);
      if x in doc.texts { OwnAverage(if f < i - 1 then b else a, b, i - 1, f, count, Length(o, doc, x)); }
    }
  }

  lemma {:induction false} LowerAvg(a: Averages, o: Options, doc: Doc, i: nat, count: nat, f: FieldId)
    requires i <= |o.fields| && DistinctNames(o.fields) && f < |o.fields| && count > 0
    ensures Avg(LowerUpto(a, o, doc, i, count), f) ==
      if f < i && o.fields[f] in doc.texts then Avg(Lower(a, f, count, Length(o, doc, o.fields[f])), f) else Avg(a, f)
  {
    hide Length, FieldIds, Raise, Lower, Avg;
    if i > 0 {
      LowerAvg(a, o, doc, i - 1, count, f);
      FieldIdOf(o.fields, i - 1);
      var x := o.fields[i - 1];
      var b := LowerUpto(a, o, doc, i - 1, count);
      if x in doc.texts { OwnAverage(if f < i - 1 then b else a, b, i - 1, f, count, Length(o, doc, x)); }
    }
  }

  /** The same length, recorded or computed anew. */
  lemma SameLower(a: Averages, o: Options, doc: Doc, count: nat, f: FieldId)
    requires DistinctNames(o.fields) && f < |o.fields| && count > 0
    ensures Avg(LowerUpto(a, o, doc, |o.fields|, count), f) == Avg(LowerAll(a, LengthsOf(o, doc), count), f)
  {
    hide Length, FieldIds;
    LowerAvg(a, o, doc, |o.fields|, count, f);
    LengthsAt(o, doc, |o.fields|, f);
    FieldIdOf(o.fields, f);
  }

  // ----- what the average should be -----

  type FieldLengths = map<ShortId, Lengths>

  function LengthIn(fl: FieldLengths, d: ShortId, f: FieldId): nat {
    if d in fl && f in fl[d] then fl[d][f] else 0
  }

  /** Total length of field `f` over the documents below `n`. */
  function Total(fl: FieldLengths, f: FieldId, n: nat): nat {
    if n == 0 then 0 else Total(fl, f, n - 1) + LengthIn(fl, n - 1, f)
  }

  /** Average times number of documents is the total. */
  ghost predicate TrueAverage(a: Averages, fl: FieldLengths, count: nat, next: nat, f: FieldId) {
    Avg(a, f) * count as real == Total(fl, f, next) as real
  }

  lemma {:induction false} TotalElsewhere(fl: FieldLengths, fl': FieldLengths, f: FieldId, n: nat)
    requires forall d: nat :: d < n ==> LengthIn(fl, d, f) == LengthIn(fl', d, f)
    ensures Total(fl, f, n) == Total(fl', f, n)
  {
    if n > 0 { TotalElsewhere(fl, fl', f, n - 1); }
  }

  lemma {:induction false} TotalWithout(fl: FieldLengths, fl': FieldLengths, f: FieldId, n: nat, d: ShortId)
    requires d < n && LengthIn(fl', d, f) == 0
    requires forall e: nat :: e < n && e != d ==> LengthIn(fl, e, f) == LengthIn(fl', e, f)
    ensures Total(fl, f, n) == Total(fl', f, n) + LengthIn(fl, d, f)
  {
    if d == n - 1 { TotalElsewhere(fl, fl', f, n - 1); } else { TotalWithout(fl, fl', f, n - 1, d); }
  }

  lemma RaiseReal(avg: real, count: nat, n: nat)
    ensures RaiseBy(avg, count, n) * (count + 1) as real == avg * count as real + n as real
  {
  }

  lemma LowerReal(avg: real, count: nat, n: nat)
    requires count > 1
    ensures LowerBy(avg, count, n) * (count - 1) as real == avg * count as real - n as real
  {
  }

  lemma Rescale(avg: real, count: nat)
    ensures avg * (count + 1) as real == avg * count as real <==> avg == 0.0
  {
    assert avg * (count + 1) as real == avg * count as real + avg;
  }

  lemma LengthHere(o: Options, doc: Doc, fl: FieldLengths, d: ShortId, f: FieldId)
    requires DistinctNames(o.fields) && f < |o.fields|
    ensures LengthIn(fl[d := LengthsOf(o, doc)], d, f) == if o.fields[f] in doc.texts then Length(o, doc, o.fields[f]) else 0
  {
    LengthsAt(o, doc, |o.fields|, f);
    FieldIdOf(o.fields, f);
  }

  /** Adding a document keeps the average of a field true exactly if the document has
      the field or the average is zero. */
  lemma AddAverage(a: Averages, o: Options, doc: Doc, fl: FieldLengths, count: nat, d: ShortId, f: FieldId)
    requires DistinctNames(o.fields) && f < |o.fields| && d !in fl
    requires TrueAverage(a, fl, count, d, f)
    ensures TrueAverage(RaiseUpto(a, o, doc, |o.fields|, count), fl[d := LengthsOf(o, doc)], count + 1, d + 1, f) <==>
      o.fields[f] in doc.texts || Avg(a, f) == 0.0
  {
    hide Length, FieldIds, LengthsOf, RaiseBy, LowerBy, RaiseUpto;
    var fl' := fl[d := LengthsOf(o, doc)];
    RaiseAvg(a, o, doc, |o.fields|, count, f);
    LengthHere(o, doc, fl, d, f);
    TotalElsewhere(fl, fl', f, d);
    if o.fields[f] in doc.texts {
      RaiseReal(Avg(a, f), count, Length(o, doc, o.fields[f]));
    } else {
      Rescale(Avg(a, f), count);
    }
  }

  /** Likewise for taking a document away. */
  lemma RemoveAverage(a: Averages, o: Options, doc: Doc, fl: FieldLengths, count: nat, d: ShortId, next: nat, f: FieldId)
    requires DistinctNames(o.fields) && f < |o.fields| && d < next && count > 0
    requires d in fl && fl[d] == LengthsOf(o, doc)
    requires TrueAverage(a, fl, count, next, f)
    requires count == 1 ==> forall e: nat :: e < next && e != d ==> LengthIn(fl, e, f) == 0
    ensures TrueAverage(LowerUpto(a, o, doc, |o.fields|, count), fl - {d}, count - 1, next, f) <==>
      o.fields[f] in doc.texts || Avg(a, f) == 0.0
  {
    hide Length, FieldIds, LengthsOf, RaiseBy, LowerBy, Total, LengthIn, LowerUpto;
    LowerAvg(a, o, doc, |o.fields|, count, f);
    LengthHere(o, doc, fl, d, f);
    assert fl[d := LengthsOf(o, doc)] == fl;
    TotalOff(fl, f, next, d);
    if count == 1 { TotalLast(fl, f, next, d); }
    if o.fields[f] in doc.texts {
      if count > 1 { LowerReal(Avg(a, f), count, Length(o, doc, o.fields[f])); }
    } else {
      Rescale(Avg(a, f), count - 1);
    }
  }

  lemma TotalOff(fl: FieldLengths, f: FieldId, n: nat, d: ShortId)
    requires d < n
    ensures Total(fl, f, n) == Total(fl - {d}, f, n) + LengthIn(fl, d, f)
  {
    hide Total;
    TotalWithout(fl, fl - {d}, f, n, d);
  }

  lemma TotalLast(fl: FieldLengths, f: FieldId, n: nat, d: ShortId)
    requires forall e: nat :: e < n && e != d ==> LengthIn(fl, e, f) == 0
    ensures Total(fl - {d}, f, n) == 0
  {
    hide Total;
    forall e: nat | e < n ensures LengthIn(fl - {d}, e, f) == LengthIn(map[], e, f) {
      assert e != d ==> LengthIn(fl, e, f) == 0;
    }
    TotalElsewhere(fl - {d}, map[], f, n);
    TotalNone(f, n);
  }

  lemma {:induction false} TotalNone(f: FieldId, n: nat)
    ensures Total(map[], f, n) == 0
  {
    if n > 0 { TotalNone(f, n - 1); }
  }
}

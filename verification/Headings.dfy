/** The forest of headings of a page, built with a stack, and the flat list read back from it. */
module Headings {

  // ----- positions -----

  /** The nearest position before `i` with a level below `x`, or -1. */
  function Near(levels: seq<nat>, i: nat, x: nat): (p: int)
    requires i <= |levels|
    ensures -1 <= p < i
    ensures p >= 0 ==> levels[p] < x
    ensures forall k :: p < k < i ==> levels[k] >= x
  {
    if i == 0 then -1 else if levels[i - 1] < x then i - 1 else Near(levels, i - 1, x)
  }

  /** The parent of a heading: the nearest earlier heading of smaller level. */
  function Parent(levels: seq<nat>, j: nat): (p: int)
    requires j < |levels|
    ensures -1 <= p < j
    ensures p >= 0 ==> levels[p] < levels[j]
    ensures forall k :: p < k < j ==> levels[k] >= levels[j]
  {
    Near(levels, j, levels[j])
  }

  lemma ParentIs(levels: seq<nat>, j: nat, p: int)
    requires j < |levels| && -1 <= p < j && (p >= 0 ==> levels[p] < levels[j])
    requires forall k :: p < k < j ==> levels[k] >= levels[j]
    ensures Parent(levels, j) == p
  {
  }

  /** Where the section of heading `i` ends: at the next heading that is not below it. */
  function End(levels: seq<nat>, i: nat): (k: nat)
    requires i < |levels|
    ensures i < k <= |levels|
    ensures forall j :: i < j < k ==> levels[j] > levels[i]
    ensures k < |levels| ==> levels[k] <= levels[i]
  {
    EndFrom(levels, i, i + 1)
  }

  function EndFrom(levels: seq<nat>, i: nat, j: nat): (k: nat)
    requires i < j <= |levels| && forall x :: i < x < j ==> levels[x] > levels[i]
    ensures j <= k <= |levels|
    ensures forall x :: i < x < k ==> levels[x] > levels[i]
    ensures k < |levels| ==> levels[k] <= levels[i]
    decreases |levels| - j
  {
    if j < |levels| && levels[j] > levels[i] then EndFrom(levels, i, j + 1) else j
  }

  /** The children of `p` (of nobody, for -1) among the first `n` headings, in order. */
  ghost function Kids(levels: seq<nat>, p: int, n: nat): (ks: seq<nat>)
    requires n <= |levels|
    ensures forall i :: 0 <= i < |ks| ==> ks[i] < n
  {
    if n == 0 then [] else Kids(levels, p, n - 1) + if Parent(levels, n - 1) == p then [n - 1] else []
  }

  ghost function KidsFrom(levels: seq<nat>, p: int, k: nat): (ks: seq<nat>)
    requires k <= |levels|
    ensures forall i :: 0 <= i < |ks| ==> k <= ks[i] < |levels|
    decreases |levels| - k
  {
    if k == |levels| then [] else (if Parent(levels, k) == p then [k] else []) + KidsFrom(levels, p, k + 1)
  }

  lemma {:induction false} KidsSplit(levels: seq<nat>, p: int, n: nat)
    requires n <= |levels|
    ensures Kids(levels, p, n) + KidsFrom(levels, p, n) == KidsFrom(levels, p, 0)
    decreases n
  {
    hide Parent;
    if n > 0 {
      KidsSplit(levels, p, n - 1);
      Associate(Kids(levels, p, n - 1), if Parent(levels, n - 1) == p then [n - 1] else [], KidsFrom(levels, p, n));
    }
  }

  lemma Associate<T>(a: seq<T>, b: seq<T>, c: seq<T>)
    ensures a + (b + c) == a + b + c
  {
  }

  /** No child of `p` lies in between. */
  lemma {:induction false} KidsSkip(levels: seq<nat>, p: int, k: nat, k': nat)
    requires k <= k' <= |levels| && forall j :: k <= j < k' ==> Parent(levels, j) != p
    ensures KidsFrom(levels, p, k) == KidsFrom(levels, p, k')
    decreases k' - k
  {
    hide Parent;
    if k < k' { KidsSkip(levels, p, k + 1, k'); }
  }

  lemma KidsAll(levels: seq<nat>, p: int)
    requires -1 <= p < |levels|
    ensures Kids(levels, p, |levels|) == KidsFrom(levels, p, p + 1)
  {
    KidsSplit(levels, p, |levels|);
    KidsSkip(levels, p, 0, p + 1);
  }

  /** A place where the children of `p` may go on. */
  ghost predicate Boundary(levels: seq<nat>, p: int, k: nat)
    requires -1 <= p < |levels|
  {
    && p < k <= EndOf(levels, p)
    && (k < EndOf(levels, p) ==> Parent(levels, k) == p)
  }

  ghost function EndOf(levels: seq<nat>, p: int): nat
    requires -1 <= p < |levels|
  {
    if p < 0 then |levels| else End(levels, p)
  }

  lemma FirstBoundary(levels: seq<nat>, p: int)
    requires -1 <= p < |levels|
    ensures Boundary(levels, p, p + 1)
  {
    if p + 1 < EndOf(levels, p) { ParentIs(levels, p + 1, p); }
  }

  /** After a child comes, where its section ends, the next child. */
  lemma NoKidsBelow(levels: seq<nat>, p: int, k: nat)
    requires -1 <= p < k < |levels|
    ensures forall j :: k < j < End(levels, k) ==> Parent(levels, j) != p
  {
  }

  lemma NextBoundary(levels: seq<nat>, p: int, k: nat)
    requires -1 <= p < |levels| && Boundary(levels, p, k) && k < EndOf(levels, p)
    ensures Boundary(levels, p, End(levels, k))
    ensures KidsFrom(levels, p, k) == [k] + KidsFrom(levels, p, End(levels, k))
  {
    var k' := End(levels, k);
    if k' < EndOf(levels, p) { ParentIs(levels, k', p); }
    NoKidsBelow(levels, p, k);
    hide Parent, End, EndOf;
    KidsSkip(levels, p, k + 1, k');
  }

  lemma LastBoundary(levels: seq<nat>, p: int)
    requires -1 <= p < |levels|
    ensures KidsFrom(levels, p, EndOf(levels, p)) == []
  {
    var e := EndOf(levels, p);
    if p >= 0 {
      forall j: nat | e <= j < |levels| ensures Parent(levels, j) != p {
      }
    }
    KidsSkip(levels, p, e, |levels|);
  }

  /** There are no more children exactly at the end. */
  lemma AtEnd(levels: seq<nat>, p: int, k: nat)
    requires -1 <= p < |levels| && Boundary(levels, p, k)
    ensures k <= |levels| && (KidsFrom(levels, p, k) == [] <==> k == EndOf(levels, p))
  {
    if k == EndOf(levels, p) { LastBoundary(levels, p); } else { NextBoundary(levels, p, k); }
  }

  // ----- objects -----

  class Heading {
    const level: nat
    var children: seq<Heading>

    constructor (level: nat)
      ensures this.level == level && children == []
    {
      this.level := level;
      children := [];
    }

    /** `getFlatChildren`: the heading, then what is below each child in turn. In a forest made by
        `CreateHeaderTree` that is the section of the heading, in document order. */
    method GetFlatChildren(ghost e: seq<Heading>, ghost levels: seq<nat>, ghost i: nat) returns (flat: seq<Heading>)
      requires AreHeadings(e, levels) && Linked(e, levels, |levels|) && i < |e| && e[i] == this
      ensures flat == e[i..End(levels, i)]
      decreases |levels| - i
    {
      hide Linked, Boundary, KidsFrom, Kids, End, Parent;
      flat := [this];
      ghost var k := i + 1;
      KidsHere(e, levels, i);
      var j := 0;
      while j < |children|
        invariant j <= |children| && i < k <= End(levels, i) && Boundary(levels, i, k)
        invariant children[j..] == Select(e, KidsFrom(levels, i, k)) && flat == e[i..k]
      {
        ChildHere(e, levels, i, k, children, j);
        var below := children[j].GetFlatChildren(e, levels, k);
        flat := flat + below;
        k := End(levels, k);
        j := j + 1;
      }
      Done(e, levels, i, k);
    }
  }

  ghost predicate AreHeadings(e: seq<Heading>, levels: seq<nat>) {
    && |e| == |levels|
    && (forall i :: 0 <= i < |e| ==> e[i].level == levels[i])
    && (forall i, j :: 0 <= i < j < |e| ==> e[i] != e[j])
  }

  ghost function Select(e: seq<Heading>, ks: seq<nat>): (hs: seq<Heading>)
    requires forall i :: 0 <= i < |ks| ==> ks[i] < |e|
    ensures |hs| == |ks| && forall i :: 0 <= i < |ks| ==> hs[i] == e[ks[i]]
  {
    if ks == [] then [] else [e[ks[0]]] + Select(e, ks[1..])
  }

  /** Every heading has exactly its children, in document order. */
  ghost predicate Linked(e: seq<Heading>, levels: seq<nat>, n: nat)
    requires n <= |levels| == |e|
    reads e
  {
    forall i :: 0 <= i < |e| ==> e[i].children == Select(e, Kids(levels, i, n))
  }

  lemma SelectMore(e: seq<Heading>, ks: seq<nat>, k: nat)
    requires k < |e| && forall i :: 0 <= i < |ks| ==> ks[i] < |e|
    ensures Select(e, ks + [k]) == Select(e, ks) + [e[k]]
  {
  }

  lemma KidsHere(e: seq<Heading>, levels: seq<nat>, i: nat)
    requires |e| == |levels| && Linked(e, levels, |levels|) && i < |e|
    ensures Boundary(levels, i, i + 1) && i + 1 <= End(levels, i)
    ensures e[i].children == e[i].children[0..] == Select(e, KidsFrom(levels, i, i + 1)) && [e[i]] == e[i..i + 1]
  {
    hide Kids, KidsFrom, End, Boundary, Parent, Select;
    KidsAll(levels, i);
    FirstBoundary(levels, i);
    AfterIt(levels, i);
    Whole(e[i].children);
    assert [e[i]] == e[i..i + 1];
  }

  lemma AfterIt(levels: seq<nat>, i: nat)
    requires i < |levels|
    ensures i + 1 <= End(levels, i)
  {
  }

  lemma Whole<T>(a: seq<T>)
    ensures a[0..] == a
  {
  }

  lemma SelectCount(e: seq<Heading>, ks: seq<nat>)
    requires forall i :: 0 <= i < |ks| ==> ks[i] < |e|
    ensures |Select(e, ks)| == |ks|
  {
  }

  /** The next child is the heading at the boundary. */
  lemma ChildHere(e: seq<Heading>, levels: seq<nat>, i: nat, k: nat, children: seq<Heading>, j: nat)
    requires |e| == |levels| && i < |levels| && i < k <= End(levels, i) && Boundary(levels, i, k)
    requires j < |children| && children[j..] == Select(e, KidsFrom(levels, i, k))
    ensures k < End(levels, i) && k < |e| && children[j] == e[k]
    ensures End(levels, k) <= End(levels, i) && Boundary(levels, i, End(levels, k))
    ensures children[j + 1..] == Select(e, KidsFrom(levels, i, End(levels, k)))
    ensures e[i..k] + e[k..End(levels, k)] == e[i..End(levels, k)]
  {
    hide End, Parent, Select, KidsFrom;
    AtEnd(levels, i, k);
    SelectCount(e, KidsFrom(levels, i, k));
    NextBoundary(levels, i, k);
    SelectFirst(e, k, KidsFrom(levels, i, End(levels, k)));
    assert children[j..][0] == children[j] && children[j..][1..] == children[j + 1..];
  }

  lemma SelectFirst(e: seq<Heading>, k: nat, ks: seq<nat>)
    requires k < |e| && forall i :: 0 <= i < |ks| ==> ks[i] < |e|
    ensures Select(e, [k] + ks) == [e[k]] + Select(e, ks)
  {
  }

  lemma Done(e: seq<Heading>, levels: seq<nat>, i: nat, k: nat)
    requires |e| == |levels| && i < |levels| && i < k <= End(levels, i) && Boundary(levels, i, k)
    requires Select(e, KidsFrom(levels, i, k)) == []
    ensures k == End(levels, i)
  {
    hide End, Parent, Select, KidsFrom;
    AtEnd(levels, i, k);
    SelectCount(e, KidsFrom(levels, i, k));
  }

  // ----- building -----

  /** The stack holds the headings that nothing after them has closed yet. */
  ghost predicate OnStack(levels: seq<nat>, n: nat, st: seq<nat>)
    requires n <= |levels|
  {
    && (forall a, b :: 0 <= a < b < |st| ==> st[a] < st[b])
    && (forall i :: i in st <==> 0 <= i < n && Open(levels, i, n))
  }

  ghost predicate Open(levels: seq<nat>, i: nat, n: nat)
    requires i < n <= |levels|
  {
    forall k :: i < k < n ==> levels[k] > levels[i]
  }

  /** What is left after popping ends with the parent, or is empty if there is none. */
  lemma TopIsParent(levels: seq<nat>, n: nat, st: seq<nat>, m: nat)
    requires n < |levels| && OnStack(levels, n, st) && m <= |st|
    requires m > 0 ==> st[m - 1] < n && levels[st[m - 1]] < levels[n]
    requires forall b :: m <= b < |st| ==> st[b] < n && levels[st[b]] >= levels[n]
    ensures Parent(levels, n) == if m > 0 then st[m - 1] else -1
  {
    var p := Parent(levels, n);
    if p >= 0 {
      assert Open(levels, p, n);
      assert p in st;
      var b :| 0 <= b < |st| && st[b] == p;
      assert b < m && (b == m - 1 || st[b] < st[m - 1]);
    }
  }

  lemma PushStack(levels: seq<nat>, n: nat, st: seq<nat>, m: nat)
    requires n < |levels| && OnStack(levels, n, st) && m <= |st|
    requires m > 0 ==> st[m - 1] < n && levels[st[m - 1]] < levels[n]
    requires forall b :: m <= b < |st| ==> st[b] < n && levels[st[b]] >= levels[n]
    ensures OnStack(levels, n + 1, st[..m] + [n])
  {
    var st' := st[..m] + [n];
    forall i ensures i in st' <==> 0 <= i < n + 1 && Open(levels, i, n + 1) {
      if i in st[..m] {
        var b :| 0 <= b < m && st[b] == i;
        assert i in st;
        StackLevels(levels, n, st, b, m - 1);
      }
      if 0 <= i < n && Open(levels, i, n + 1) {
        assert Open(levels, i, n);
        assert i in st;
        var b :| 0 <= b < |st| && st[b] == i;
        assert b < m;
        assert st[..m][b] == i;
      }
    }
    forall b | 0 <= b < m ensures st[b] < n {
      assert st[b] in st;
    }
  }

  lemma StackLevels(levels: seq<nat>, n: nat, st: seq<nat>, a: nat, b: nat)
    requires n <= |levels| && OnStack(levels, n, st) && a <= b < |st|
    ensures st[a] < n && st[b] < n && levels[st[a]] <= levels[st[b]]
  {
    assert st[a] in st && st[b] in st;
    assert Open(levels, st[a], n);
  }

  method MakeHeadings(levels: seq<nat>) returns (e: seq<Heading>)
    ensures AreHeadings(e, levels) && fresh(e)
    ensures forall i :: 0 <= i < |e| ==> e[i].children == []
  {
    e := [];
    for i := 0 to |levels|
      invariant |e| == i && fresh(e)
      invariant forall j :: 0 <= j < i ==> e[j].level == levels[j] && e[j].children == []
      invariant forall j, k :: 0 <= j < k < i ==> e[j] != e[k]
    {
      var h := new Heading(levels[i]);
      e := e + [h];
    }
  }

  lemma StartLinks(e: seq<Heading>, levels: seq<nat>)
    requires AreHeadings(e, levels) && forall i :: 0 <= i < |e| ==> e[i].children == []
    ensures |e| == |levels| && Linked(e, levels, 0) && OnStack(levels, 0, []) && Select(e, []) == [] && Kids(levels, -1, 0) == []
  {
  }

  lemma HeadingAt(e: seq<Heading>, levels: seq<nat>, i: nat)
    requires AreHeadings(e, levels) && i < |e|
    ensures |levels| == |e| && e[i].level == levels[i]
  {
  }

  lemma KidsMore(e: seq<Heading>, levels: seq<nat>, p: int, t: nat)
    requires t < |levels| == |e|
    ensures Select(e, Kids(levels, p, t + 1)) == Select(e, Kids(levels, p, t)) + if Parent(levels, t) == p then [e[t]] else []
  {
    hide Parent, Select;
    if Parent(levels, t) == p { SelectMore(e, Kids(levels, p, t), t); }
    else { assert Kids(levels, p, t) + [] == Kids(levels, p, t); }
  }

  /** Hang a heading below its parent. */
  method Adopt(e: seq<Heading>, h: Heading, p: Heading, ghost levels: seq<nat>, ghost t: nat, ghost i: nat)
    requires AreHeadings(e, levels) && t < |e| && |e| == |levels| && Linked(e, levels, t)
    requires h == e[t] && i < |e| && p == e[i] && Parent(levels, t) == i
    modifies p
    ensures Linked(e, levels, t + 1)
  {
    hide Kids, Select, Parent;
    p.children := p.children + [h];
    forall j | 0 <= j < |e| ensures e[j].children == Select(e, Kids(levels, j, t + 1)) {
      KidsMore(e, levels, j, t);
    }
  }

  /** A root is nobody's child. */
  lemma NoParent(e: seq<Heading>, levels: seq<nat>, t: nat)
    requires t < |levels| == |e| && Linked(e, levels, t) && Parent(levels, t) == -1
    ensures Linked(e, levels, t + 1)
  {
    hide Kids, Select, Parent;
    forall j | 0 <= j < |e| ensures e[j].children == Select(e, Kids(levels, j, t + 1)) {
      KidsMore(e, levels, j, t);
    }
  }

  lemma PopSelect(e: seq<Heading>, ks: seq<nat>)
    requires ks != [] && forall b :: 0 <= b < |ks| ==> ks[b] < |e|
    ensures var l := |ks| - 1; |Select(e, ks)| == |ks| && Select(e, ks)[..l] == Select(e, ks[..l]) && Select(e, ks)[l] == e[ks[l]]
  {
    hide *;
    var l := |ks| - 1;
    var a, b := Select(e, ks), Select(e, ks[..l]);
    assert |a| == |ks| && |b| == l;
    forall j | 0 <= j < l ensures a[..l][j] == b[j] {
      assert ks[..l][j] == ks[j];
    }
  }

  /** The loop that closes the headings that are not above heading `t`. */
  method Pop(e: seq<Heading>, s0: seq<Heading>, ghost levels: seq<nat>, t: nat, ghost st: seq<nat>) returns (s: seq<Heading>, ghost m: nat)
    requires AreHeadings(e, levels) && t < |e| && |e| == |levels| && OnStack(levels, t, st)
    requires (forall b :: 0 <= b < |st| ==> st[b] < t) && s0 == Select(e, st)
    ensures m <= |st| && s == Select(e, st[..m])
    ensures m > 0 ==> levels[st[m - 1]] < levels[t]
    ensures forall b :: m <= b < |st| ==> levels[st[b]] >= levels[t]
  {
    hide OnStack, Select, AreHeadings;
    s := s0;
    ghost var rest := st;
    HeadingAt(e, levels, t);
    SelectCount(e, rest);
    while |s| > 0 && s[|s| - 1].level >= e[t].level
      invariant |rest| <= |st| && rest == st[..|rest|] && s == Select(e, rest) && |s| == |rest|
      invariant forall b :: |rest| <= b < |st| ==> levels[st[b]] >= levels[t]
    {
      PopSelect(e, rest);
      HeadingAt(e, levels, rest[|rest| - 1]);
      SelectCount(e, rest[..|rest| - 1]);
      s := s[..|s| - 1];
      rest := rest[..|rest| - 1];
    }
    if |rest| > 0 {
      PopSelect(e, rest);
      HeadingAt(e, levels, rest[|rest| - 1]);
    }
    m := |rest|;
  }

  /** `createHeaderTree`: the headings in document order, and the roots of the forest. */
  method CreateHeaderTree(levels: seq<nat>) returns (e: seq<Heading>, roots: seq<Heading>)
    ensures AreHeadings(e, levels) && fresh(e)
    ensures Linked(e, levels, |levels|)
    ensures roots == Select(e, Kids(levels, -1, |levels|))
  {
    hide OnStack, Linked, Kids, Select, Parent, AreHeadings;
    e := MakeHeadings(levels);
    roots := [];
    var s: seq<Heading> := [];
    ghost var st: seq<nat> := [];
    StartLinks(e, levels);
    var t := 0;
    while t < |e|
      invariant t <= |e| == |levels| && AreHeadings(e, levels) && fresh(e)
      invariant OnStack(levels, t, st) && (forall b :: 0 <= b < |st| ==> st[b] < t) && s == Select(e, st)
      invariant Linked(e, levels, t) && roots == Select(e, Kids(levels, -1, t))
    {
      ghost var m;
      s, m := Pop(e, s, levels, t, st);
      SelectCount(e, st[..m]);
      TopIsParent(levels, t, st, m);
      KidsMore(e, levels, -1, t);
      if |s| > 0 {
        PopSelect(e, st[..m]);
        Adopt(e, e[t], s[|s| - 1], levels, t, st[m - 1]);
      } else {
        roots := roots + [e[t]];
        NoParent(e, levels, t);
      }
      SelectMore(e, st[..m], t);
      PushStack(levels, t, st, m);
      s := s + [e[t]];
      st := st[..m] + [t];
      t := t + 1;
    }
  }

  /** The flat lists of the roots, one after the other, are all headings in document order. */
  method FlatForest(roots: seq<Heading>, ghost e: seq<Heading>, ghost levels: seq<nat>) returns (flat: seq<Heading>)
    requires AreHeadings(e, levels) && Linked(e, levels, |levels|) && roots == Select(e, Kids(levels, -1, |levels|))
    ensures flat == e
  {
    hide Linked, Boundary, KidsFrom, Kids, End, Parent;
    flat := [];
    ghost var k: nat := 0;
    KidsAll(levels, -1);
    FirstBoundary(levels, -1);
    var j := 0;
    while j < |roots|
      invariant j <= |roots| && k <= |levels| && Boundary(levels, -1, k)
      invariant roots[j..] == Select(e, KidsFrom(levels, -1, k)) && flat == e[..k]
    {
      RootHere(e, levels, k, roots, j);
      var below := roots[j].GetFlatChildren(e, levels, k);
      flat := flat + below;
      k := End(levels, k);
      j := j + 1;
    }
    RootsDone(e, levels, k);
  }

  lemma RootHere(e: seq<Heading>, levels: seq<nat>, k: nat, roots: seq<Heading>, j: nat)
    requires |e| == |levels| && k <= |levels| && Boundary(levels, -1, k)
    requires j < |roots| && roots[j..] == Select(e, KidsFrom(levels, -1, k))
    ensures k < |e| && roots[j] == e[k] && Boundary(levels, -1, End(levels, k))
    ensures roots[j + 1..] == Select(e, KidsFrom(levels, -1, End(levels, k)))
    ensures e[..k] + e[k..End(levels, k)] == e[..End(levels, k)]
  {
    hide End, Parent, Select, KidsFrom;
    AtEnd(levels, -1, k);
    SelectCount(e, KidsFrom(levels, -1, k));
    NextBoundary(levels, -1, k);
    SelectFirst(e, k, KidsFrom(levels, -1, End(levels, k)));
    assert roots[j..][0] == roots[j] && roots[j..][1..] == roots[j + 1..];
  }

  lemma RootsDone(e: seq<Heading>, levels: seq<nat>, k: nat)
    requires |e| == |levels| && k <= |levels| && Boundary(levels, -1, k) && Select(e, KidsFrom(levels, -1, k)) == []
    ensures k == |levels|
  {
    hide End, Parent, Select, KidsFrom;
    AtEnd(levels, -1, k);
    SelectCount(e, KidsFrom(levels, -1, k));
  }
}

/** The entries of a tree in the order the iterator yields them, the finite map
    they form, and why the tree's shape is a function of that map. */
module RadixEntries {
  import opened JsMaps
  import opened RadixTree

  /** Entries below a list of slots: last slot first, each subtree in turn. */
  ghost function Entries<V>(p: string, slots: seq<(string, Item<V>)>): seq<(string, V)>
    decreases slots
  {
    if slots == [] then []
    else Yield(p, slots[|slots| - 1]) + Entries(p, slots[..|slots| - 1])
  }

  ghost function Yield<V>(p: string, e: (string, Item<V>)): seq<(string, V)>
    decreases e
  {
    match e.1
    case Val(v) => [(p, v)]
    case Sub(t) => Entries(p + e.0, t.slots)
  }

  ghost predicate DistinctKeys<V>(es: seq<(string, V)>) {
    forall i, j :: 0 <= i < j < |es| ==> es[i].0 != es[j].0
  }

  lemma InitCompressed<V>(t: Tree<V>)
    requires Compressed(t) && t.slots != []
    ensures Compressed(t.(slots := t.slots[..|t.slots| - 1]))
  {
  }

  /** What looking up a key means one slot at a time. */
  lemma LookupLast<V>(t: Tree<V>, x: string)
    requires Compressed(t) && t.slots != []
    ensures var (n, c) := t.slots[|t.slots| - 1];
      Lookup(t, x) ==
        if n == "" then (if x == "" then Some(c.v) else Lookup(t.(slots := t.slots[..|t.slots| - 1]), x))
        else if n <= x then Lookup(c.t, x[|n|..])
        else Lookup(t.(slots := t.slots[..|t.slots| - 1]), x)
  {
    var l := |t.slots| - 1;
    var (n, c) := t.slots[l];
    var d := t.(slots := t.slots[..l]);
    InitCompressed(t);
    if n != "" && n <= x {
      AtEdge(t, l, x);
    } else if x == "" {
      if n == "" {
        KeyAt(t.slots, l);
      } else {
        var i := IndexOf(t.slots, "");
        if i < |t.slots| { KeyAt(d.slots, i); }
      }
    } else {
      var i := EdgeOf(t.slots, x);
      if i < |t.slots| {
        assert i < l;
        AtEdge(d, i, x);
        AtEdge(t, i, x);
      }
    }
  }

  lemma LookupLastInit<V>(t: Tree<V>, x: string)
    requires Compressed(t) && t.slots != []
    requires var n := t.slots[|t.slots| - 1].0; if n == "" then x == "" else n <= x
    ensures Lookup(t.(slots := t.slots[..|t.slots| - 1]), x) == None
  {
    var l := |t.slots| - 1;
    var d := t.(slots := t.slots[..l]);
    InitCompressed(t);
    if x != "" {
      var i := EdgeOf(d.slots, x);
      if i < l { assert d.slots[i] == t.slots[i]; }
    }
  }

  /** Soundness: everything enumerated is in the map. */
  lemma {:induction false} EntriesSound<V>(p: string, t: Tree<V>, i: nat)
    requires Compressed(t) && i < |Entries(p, t.slots)|
    ensures p <= Entries(p, t.slots)[i].0
    ensures Lookup(t, Entries(p, t.slots)[i].0[|p|..]) == Some(Entries(p, t.slots)[i].1)
    decreases t.slots
  {
    var l := |t.slots| - 1;
    var (n, c) := t.slots[l];
    var d := t.(slots := t.slots[..l]);
    var ys := Yield(p, t.slots[l]);
    InitCompressed(t);
    var e := Entries(p, t.slots)[i];
    if i < |ys| {
      if c.Sub? {
        EntriesSound(p + n, c.t, i);
        assert p <= e.0 by { assert e.0[..|p + n|] == p + n; assert e.0[..|p|] == e.0[..|p + n|][..|p|]; }
        var x := e.0[|p|..];
        assert e.0[|p + n|..] == x[|n|..];
        assert n <= x;
      } else {
        assert e == (p, c.v);
      }
      LookupLast(t, e.0[|p|..]);
    } else {
      EntriesSound(p, d, i - |ys|);
      LookupLast(t, e.0[|p|..]);
      if (if n == "" then e.0[|p|..] == "" else n <= e.0[|p|..]) { LookupLastInit(t, e.0[|p|..]); }
    }
  }

  lemma KindLast<V>(t: Tree<V>)
    requires Compressed(t) && t.slots != []
    ensures var (n, c) := t.slots[|t.slots| - 1]; (n == "" <==> c.Val?) && (c.Sub? ==> Compressed(c.t))
  {
  }

  /** Completeness: everything in the map is enumerated. */
  lemma {:induction false} EntriesComplete<V>(p: string, t: Tree<V>, x: string) returns (i: nat)
    requires Compressed(t) && Lookup(t, x).Some?
    ensures i < |Entries(p, t.slots)| && Entries(p, t.slots)[i] == (p + x, Lookup(t, x).value)
    decreases t.slots
  {
    NotEmpty(t, x);
    hide *;
    KindLast(t);
    var l := |t.slots| - 1;
    var (n, c) := t.slots[l];
    var d := t.(slots := t.slots[..l]);
    EntriesLast(p, t.slots);
    InitCompressed(t);
    LookupLast(t, x);
    if n == "" && x == "" {
      i := 0;
      assert p + x == p;
    } else if n != "" && n <= x {
      i := EntriesComplete(p + n, c.t, x[|n|..]);
      Regroup(p, n, x);
    } else {
      var i' := EntriesComplete(p, d, x);
      i := i' + |Yield(p, t.slots[l])|;
      assert Entries(p, t.slots)[i] == Entries(p, d.slots)[i'];
    }
  }

  lemma Regroup(p: string, n: string, x: string)
    requires n <= x
    ensures p + n + x[|n|..] == p + x
  {
  }

  lemma NotEmpty<V>(t: Tree<V>, x: string)
    requires Lookup(t, x).Some?
    ensures t.slots != []
  {
  }

  lemma EntriesLast<V>(p: string, slots: seq<(string, Item<V>)>)
    requires slots != []
    ensures var l := |slots| - 1;
      && Entries(p, slots) == Yield(p, slots[l]) + Entries(p, slots[..l])
      && Yield(p, slots[l]) == if slots[l].1.Val? then [(p, slots[l].1.v)] else Entries(p + slots[l].0, slots[l].1.t.slots)
  {
  }

  /** What the last slot yields is not under the others. */
  lemma LastApart<V>(p: string, t: Tree<V>, i: nat, j: nat)
    requires Compressed(t) && t.slots != []
    requires i < |Yield(p, t.slots[|t.slots| - 1])| && j < |Entries(p, t.slots[..|t.slots| - 1])|
    ensures Yield(p, t.slots[|t.slots| - 1])[i].0 != Entries(p, t.slots[..|t.slots| - 1])[j].0
  {
    var (n, c) := t.slots[|t.slots| - 1];
    var d := t.(slots := t.slots[..|t.slots| - 1]);
    InitCompressed(t);
    EntriesSound(p, d, j);
    var k := Entries(p, d.slots)[j].0;
    if c.Sub? {
      EntriesSound(p + n, c.t, i);
      if p + n <= k {
        Under(p, n, k);
        LookupLastInit(t, k[|p|..]);
      }
    } else if k == p {
      LookupLastInit(t, "");
    }
  }

  lemma Under(p: string, n: string, k: string)
    requires p + n <= k
    ensures p <= k && n <= k[|p|..] && k[|p|..][|n|..] == k[|p + n|..]
  {
    assert k[..|p + n|] == p + n;
    assert k[..|p|] == (p + n)[..|p|];
  }

  /** No key is enumerated twice. */
  lemma {:induction false} EntriesDistinct<V>(p: string, t: Tree<V>)
    requires Compressed(t)
    ensures DistinctKeys(Entries(p, t.slots))
    decreases t.slots
  {
    if t.slots != [] {
      var l := |t.slots| - 1;
      var (n, c) := t.slots[l];
      var d := t.(slots := t.slots[..l]);
      InitCompressed(t);
      EntriesDistinct(p, d);
      if c.Sub? { EntriesDistinct(p + n, c.t); }
      var ys, zs := Yield(p, t.slots[l]), Entries(p, d.slots);
      forall i, j | 0 <= i < |ys| && 0 <= j < |zs|
        ensures ys[i].0 != zs[j].0
      {
        LastApart(p, t, i, j);
      }
    }
  }
}

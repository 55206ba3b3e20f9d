/** The part of the JavaScript `Map` that the search index relies on: an
    insertion-ordered list of entries with distinct string keys. */
module JsMaps {

  datatype Option<+T> = None | Some(value: T)

  /** Position of key `k`, or the length when the key is absent. */
  function IndexOf<T>(m: seq<(string, T)>, k: string): (i: nat)
    ensures i <= |m|
    ensures i < |m| ==> m[i].0 == k
    ensures forall j :: 0 <= j < i ==> m[j].0 != k
  {
    if m == [] then 0 else if m[0].0 == k then 0 else 1 + IndexOf(m[1..], k)
  }

  /** `map.set(k, v)`: overwrite in place, or append. */
  function Put<T>(m: seq<(string, T)>, k: string, v: T): seq<(string, T)> {
    var i := IndexOf(m, k);
    if i < |m| then m[i := (k, v)] else m + [(k, v)]
  }

  /** `map.delete(k)`. */
  function Del<T>(m: seq<(string, T)>, k: string): seq<(string, T)> {
    var i := IndexOf(m, k);
    if i < |m| then Drop(m, i) else m
  }

  /** Position of the first non-empty label that is a prefix of `w`. */
  function EdgeOf<T>(m: seq<(string, T)>, w: string): (i: nat)
    ensures i <= |m|
    ensures i < |m| ==> m[i].0 != "" && m[i].0 <= w
    ensures forall j :: 0 <= j < i ==> m[j].0 == "" || !(m[j].0 <= w)
  {
    if m == [] then 0
    else if m[0].0 != "" && m[0].0 <= w then 0
    else 1 + EdgeOf(m[1..], w)
  }

  /** Position of the first label that starts with character `c`. */
  function BranchOf<T>(m: seq<(string, T)>, c: char): (i: nat)
    ensures i <= |m|
    ensures i < |m| ==> m[i].0 != "" && m[i].0[0] == c
    ensures forall j :: 0 <= j < i ==> m[j].0 == "" || m[j].0[0] != c
  {
    if m == [] then 0
    else if m[0].0 != "" && m[0].0[0] == c then 0
    else 1 + BranchOf(m[1..], c)
  }

  /** Length of the longest common prefix. */
  function Common(x: string, y: string): (n: nat)
    ensures n <= |x| && n <= |y| && x[..n] == y[..n]
    ensures n < |x| && n < |y| ==> x[n] != y[n]
  {
    if x == "" || y == "" || x[0] != y[0] then 0 else 1 + Common(x[1..], y[1..])
  }

  /** Sibling labels are distinct: at most one leaf key, and two edges never
      start with the same character. */
  ghost predicate Siblings<T>(m: seq<(string, T)>) {
    forall i, j :: 0 <= i < j < |m| ==>
      if m[i].0 == "" || m[j].0 == "" then m[i].0 != m[j].0 else m[i].0[0] != m[j].0[0]
  }

  lemma KeyAt<T>(m: seq<(string, T)>, i: nat)
    requires Siblings(m) && i < |m|
    ensures IndexOf(m, m[i].0) == i
  {
  }

  lemma EdgeAt<T>(m: seq<(string, T)>, i: nat, w: string)
    requires Siblings(m) && i < |m| && m[i].0 != "" && m[i].0 <= w
    ensures EdgeOf(m, w) == i
  {
    var j := EdgeOf(m, w);
    assert m[i].0[0] == w[0];
    if j < |m| { assert m[j].0[0] == w[0]; }
  }

  function Drop<T>(m: seq<(string, T)>, i: nat): (r: seq<(string, T)>)
    requires i < |m|
    ensures |r| == |m| - 1
    ensures forall j :: 0 <= j < |r| ==> r[j] == if j < i then m[j] else m[j+1]
  {
    m[..i] + m[i+1..]
  }

  /** Moving an edge to the end under a new label with the same first character
      keeps the siblings apart. */
  lemma Relabelled<T>(m: seq<(string, T)>, i: nat, x: string, v: T)
    requires Siblings(m) && i < |m| && m[i].0 != "" && x != "" && x[0] == m[i].0[0]
    ensures Siblings(Drop(m, i)) && Siblings(Drop(m, i) + [(x, v)])
  {
  }

  /** Every edge of `m` that starts with `c` is one of `m'`. */
  ghost predicate Covers<T>(m: seq<(string, T)>, m': seq<(string, T)>, c: char) {
    forall i :: 0 <= i < |m| && m[i].0 != "" && m[i].0[0] == c ==> m[i] in m'
  }

  /** Two lists of siblings that agree on the entries fitting `w` resolve it to the same entry. */
  lemma SameEdge<T>(m: seq<(string, T)>, m': seq<(string, T)>, w: string)
    requires Siblings(m) && Siblings(m') && w != ""
    requires Covers(m, m', w[0]) && Covers(m', m, w[0])
    ensures EdgeOf(m, w) < |m| <==> EdgeOf(m', w) < |m'|
    ensures EdgeOf(m, w) < |m| ==> m[EdgeOf(m, w)] == m'[EdgeOf(m', w)]
  {
    var i, j := EdgeOf(m, w), EdgeOf(m', w);
    if i < |m| {
      assert m[i] in m';
      var j' :| 0 <= j' < |m'| && m'[j'] == m[i];
      EdgeAt(m', j', w);
    }
    if j < |m'| {
      assert m'[j] in m;
      var i' :| 0 <= i' < |m| && m[i'] == m'[j];
      EdgeAt(m, i', w);
    }
  }
}

/** The approximate lookup: one byte matrix, shared by all branches of the tree and
    filled only along a diagonal band. What it reports of a key depends on the key alone. */
module FuzzySearch {
  import opened JsMaps
  import opened RadixTree
  import opened RadixStore
  import opened RadixEntries
  import opened RadixMaps
  import opened Levenshtein

  type Byte = x: int | 0 <= x < 256

  /** What a `Uint8Array` makes of a number. */
  function ToByte(x: nat): Byte { x % 256 }

  // ----- the matrix -----

  /** Row `i` of the matrix belongs to the first `i` characters of the key, column `c`
      to the first `c` characters of the query. */
  function Ix(q: string, i: nat, c: nat): nat { i * (|q| + 1) + c }

  function Rows(q: string, k: nat): nat { |q| + 1 + k }

  lemma IxIn(q: string, rows: nat, i: nat, c: nat)
    requires i < rows && c <= |q|
    ensures Ix(q, i, c) < Ix(q, i + 1, 0) <= Ix(q, rows, 0)
  {
    assert (i + 1) * (|q| + 1) <= rows * (|q| + 1);
    assert (i + 1) * (|q| + 1) == i * (|q| + 1) + (|q| + 1);
  }

  lemma IxApart(q: string, i: nat, c: nat, i': nat, c': nat)
    requires c <= |q| && c' <= |q| && Ix(q, i, c) == Ix(q, i', c')
    ensures i == i' && c == c'
  {
    if i < i' { IxIn(q, i', i, c); } else if i' < i { IxIn(q, i, i', c'); }
  }

  predicate Off(i: nat, c: nat, k: nat) { c > i + k || i > c + k }

  /** Values of the cells that the search never writes. */
  function Start(i: nat, c: nat, k: nat): Byte {
    ToByte(if i == 0 then c else if c == 0 then i else k + 1)
  }

  ghost predicate Sized(m: seq<Byte>, q: string, k: nat) {
    |m| == Ix(q, Rows(q, k), 0)
  }

  ghost function Cell(m: seq<Byte>, q: string, k: nat, i: nat, c: nat): Byte
    requires Sized(m, q, k) && i < Rows(q, k) && c <= |q|
  {
    IxIn(q, Rows(q, k), i, c);
    m[Ix(q, i, c)]
  }

  ghost predicate Fixed(m: seq<Byte>, q: string, k: nat)
    requires Sized(m, q, k)
  {
    forall i, c {:trigger Cell(m, q, k, i, c)} :: 0 <= i < Rows(q, k) && 0 <= c <= |q| && (i == 0 || c == 0 || Off(i, c, k)) ==>
      Cell(m, q, k, i, c) == Start(i, c, k)
  }

  // ----- what is reported of a key -----

  /** The cell in the row of the path `p` and column `c`: a number of the recurrence, as far as it fits a byte. */
  ghost function CellOf(q: string, k: nat, p: string, c: nat): Byte
    requires c <= |q|
    decreases |p|, c, 1
  {
    if p == "" || c == 0 || Off(|p|, c, k) then Start(|p|, c, k) else ToByte(Number(q, k, p, c))
  }

  /** The number itself. */
  ghost function Number(q: string, k: nat, p: string, c: nat): nat
    requires p != "" && 0 < c <= |q|
    decreases |p|, c, 0
  {
    var p' := p[..|p| - 1];
    Min3(CellOf(q, k, p', c - 1) + (if p[|p| - 1] != q[c - 1] then 1 else 0), CellOf(q, k, p', c) + 1, CellOf(q, k, p, c - 1) + 1)
  }

  function Low(k: nat, i: nat): nat { if i >= k + 1 then i - k - 1 else 0 }

  function High(q: string, k: nat, i: nat): nat { if |q| <= i + k then |q| else i + k }

  /** The least of the numbers met in the row of `p` up to column `j`. */
  ghost function Least(q: string, k: nat, p: string, j: nat): nat
    requires p != "" && j <= |q|
    decreases j
  {
    if j <= Low(k, |p|) then Start(|p|, 0, k)
    else
      var least := Least(q, k, p, j - 1);
      if Number(q, k, p, j) < least then Number(q, k, p, j) else least
  }

  /** The row of `p` leaves no hope. Below the matrix there are no numbers, and nothing is given up. */
  ghost predicate Pruned(q: string, k: nat, p: string) {
    0 < |p| < Rows(q, k) && Least(q, k, p, High(q, k, |p|)) > k
  }

  ghost predicate Cut(q: string, k: nat, x: string) {
    exists i :: 0 < i <= |x| && Pruned(q, k, x[..i])
  }

  /** The distance reported for a key, if any. */
  ghost function Reported(q: string, k: nat, x: string): Option<Byte> {
    if Cut(q, k, x) || |x| >= Rows(q, k) || CellOf(q, k, x, |q|) > k then None else Some(CellOf(q, k, x, |q|))
  }

  lemma CutLonger(q: string, k: nat, p: string, x: string)
    requires p <= x && Cut(q, k, p)
    ensures Cut(q, k, x)
  {
    hide Pruned;
    var i :| 0 < i <= |p| && Pruned(q, k, p[..i]);
    assert p[..i] == x[..i];
  }

  lemma CutStep(q: string, k: nat, p: string)
    requires p != ""
    ensures Cut(q, k, p) <==> Cut(q, k, p[..|p| - 1]) || Pruned(q, k, p)
  {
    hide Pruned;
    var p' := p[..|p| - 1];
    assert p[..|p|] == p;
    if Cut(q, k, p') { CutLonger(q, k, p', p); }
    if Cut(q, k, p) {
      var i :| 0 < i <= |p| && Pruned(q, k, p[..i]);
      if i < |p| { assert p[..i] == p'[..i]; }
    }
  }

  // ----- one row -----

  /** The row of `p` is in the matrix. */
  ghost predicate RowIs(m: seq<Byte>, q: string, k: nat, p: string)
    requires Sized(m, q, k) && |p| < Rows(q, k)
  {
    forall c {:trigger Cell(m, q, k, |p|, c)} :: 0 <= c <= |q| ==> Cell(m, q, k, |p|, c) == CellOf(q, k, p, c)
  }

  /** The rows up to `n` are the same. */
  ghost predicate SameUpTo(m: seq<Byte>, m': seq<Byte>, q: string, k: nat, n: nat)
    requires Sized(m, q, k) && Sized(m', q, k)
  {
    forall r, c {:trigger Cell(m', q, k, r, c)} :: 0 <= r < Rows(q, k) && r <= n && 0 <= c <= |q| ==>
      Cell(m', q, k, r, c) == Cell(m, q, k, r, c)
  }

  /** Cells outside row `i` are the same. */
  ghost predicate SameBut(m: seq<Byte>, m': seq<Byte>, q: string, k: nat, i: nat)
    requires Sized(m, q, k) && Sized(m', q, k)
  {
    forall r, c {:trigger Cell(m', q, k, r, c)} :: 0 <= r < Rows(q, k) && r != i && 0 <= c <= |q| ==>
      Cell(m', q, k, r, c) == Cell(m, q, k, r, c)
  }

  /** The rows of `p` and of all its prefixes are in the matrix. */
  ghost predicate Rowed(m: seq<Byte>, q: string, k: nat, p: string) {
    && Sized(m, q, k) && Fixed(m, q, k)
    && forall i :: 0 <= i <= |p| && i < Rows(q, k) ==> RowIs(m, q, k, p[..i])
  }

  /** The row above is there. */
  ghost predicate Basis(m: seq<Byte>, q: string, k: nat, p: string) {
    0 < |p| < Rows(q, k) && Sized(m, q, k) && Fixed(m, q, k) && RowIs(m, q, k, p[..|p| - 1])
  }

  /** Columns up to `j` of the row of `p` are done, the rest of the matrix is as it was. */
  ghost predicate Partial(m0: seq<Byte>, m: seq<Byte>, q: string, k: nat, p: string, j: nat, least: nat) {
    && 0 < |p| < Rows(q, k) && j <= |q|
    && Sized(m0, q, k) && Sized(m, q, k) && Fixed(m, q, k) && SameBut(m0, m, q, k, |p|)
    && (forall c {:trigger Cell(m, q, k, |p|, c)} :: 0 <= c <= j ==> Cell(m, q, k, |p|, c) == CellOf(q, k, p, c))
    && least == Least(q, k, p, j)
  }

  lemma PartialStart(m: seq<Byte>, q: string, k: nat, p: string)
    requires Basis(m, q, k, p)
    ensures Low(k, |p|) <= |q| && Partial(m, m, q, k, p, Low(k, |p|), Cell(m, q, k, |p|, 0))
  {
    hide Sized, Cell, Start;
    forall c {:trigger Cell(m, q, k, |p|, c)} | 0 <= c <= Low(k, |p|) ensures Cell(m, q, k, |p|, c) == CellOf(q, k, p, c) {
      assert c == 0 || Off(|p|, c, k);
    }
  }

  /** Writing one cell. */
  lemma WriteCell(m: seq<Byte>, q: string, k: nat, i: nat, c: nat, d: Byte)
    requires Sized(m, q, k) && i < Rows(q, k) && c <= |q|
    ensures Ix(q, i, c) < |m| && Sized(m[Ix(q, i, c) := d], q, k)
    ensures forall r, b {:trigger Cell(m[Ix(q, i, c) := d], q, k, r, b)} :: 0 <= r < Rows(q, k) && 0 <= b <= |q| ==>
      Cell(m[Ix(q, i, c) := d], q, k, r, b) == if r == i && b == c then d else Cell(m, q, k, r, b)
  {
    IxIn(q, Rows(q, k), i, c);
    forall r, b {:trigger Cell(m[Ix(q, i, c) := d], q, k, r, b)} | 0 <= r < Rows(q, k) && 0 <= b <= |q|
      ensures Cell(m[Ix(q, i, c) := d], q, k, r, b) == if r == i && b == c then d else Cell(m, q, k, r, b)
    {
      IxIn(q, Rows(q, k), r, b);
      if Ix(q, r, b) == Ix(q, i, c) { IxApart(q, r, b, i, c); }
    }
  }

  /** The recurrence, on the cells of the matrix. */
  ghost function NextValue(m: seq<Byte>, q: string, k: nat, i: nat, j: nat, ch: char): nat
    requires Sized(m, q, k) && 0 < i < Rows(q, k) && j < |q|
  {
    Min3(Cell(m, q, k, i - 1, j) + (if ch != q[j] then 1 else 0), Cell(m, q, k, i - 1, j + 1) + 1, Cell(m, q, k, i, j) + 1)
  }

  lemma NextIs(m0: seq<Byte>, m: seq<Byte>, q: string, k: nat, p: string, j: nat, least: nat)
    requires Basis(m0, q, k, p) && Partial(m0, m, q, k, p, j, least) && j < |q|
    ensures NextValue(m, q, k, |p|, j, p[|p| - 1]) == Number(q, k, p, j + 1)
  {
    hide Sized, Cell, CellOf, Fixed, Least;
    var i, p' := |p|, p[..|p| - 1];
    assert |p'| == i - 1;
    assert Cell(m, q, k, i - 1, j) == Cell(m0, q, k, i - 1, j) == CellOf(q, k, p', j);
    assert Cell(m, q, k, i - 1, j + 1) == Cell(m0, q, k, i - 1, j + 1) == CellOf(q, k, p', j + 1);
    assert Cell(m, q, k, i, j) == CellOf(q, k, p, j);
  }

  lemma PartialStep(m0: seq<Byte>, m: seq<Byte>, q: string, k: nat, p: string, j: nat, least: nat, d: nat)
    requires Basis(m0, q, k, p) && Partial(m0, m, q, k, p, j, least)
    requires Low(k, |p|) <= j < High(q, k, |p|) && d == NextValue(m, q, k, |p|, j, p[|p| - 1])
    ensures Ix(q, |p|, j + 1) < |m|
    ensures Partial(m0, m[Ix(q, |p|, j + 1) := ToByte(d)], q, k, p, j + 1, if d < least then d else least)
  {
    hide Sized, Cell, NextValue, Number, Ix, ToByte;
    NextIs(m0, m, q, k, p, j, least);
    WriteCell(m, q, k, |p|, j + 1, ToByte(d));
    assert !Off(|p|, j + 1, k);
    assert CellOf(q, k, p, j + 1) == ToByte(d);
    StillFixed(m, q, k, |p|, j + 1, ToByte(d));
    hide CellOf;
  }

  lemma StillFixed(m: seq<Byte>, q: string, k: nat, i: nat, c: nat, d: Byte)
    requires Sized(m, q, k) && Fixed(m, q, k) && 0 < i < Rows(q, k) && 0 < c <= |q| && !Off(i, c, k)
    ensures Ix(q, i, c) < |m| && Sized(m[Ix(q, i, c) := d], q, k) && Fixed(m[Ix(q, i, c) := d], q, k)
  {
    hide Sized, Cell, Ix, Start, Off;
    WriteCell(m, q, k, i, c, d);
  }

  lemma PartialEnd(m0: seq<Byte>, m: seq<Byte>, q: string, k: nat, p: string, least: nat)
    requires Partial(m0, m, q, k, p, High(q, k, |p|), least)
    ensures Sized(m0, q, k) && Sized(m, q, k) && Fixed(m, q, k) && SameBut(m0, m, q, k, |p|) && RowIs(m, q, k, p)
    ensures least == Least(q, k, p, High(q, k, |p|)) && (Pruned(q, k, p) <==> least > k)
  {
    hide Sized, Cell, Start, Least;
    forall c {:trigger Cell(m, q, k, |p|, c)} | 0 <= c <= |q| ensures Cell(m, q, k, |p|, c) == CellOf(q, k, p, c) {
      if c > High(q, k, |p|) { assert Off(|p|, c, k); }
    }
  }

  lemma PartialSize(m0: seq<Byte>, m: seq<Byte>, q: string, k: nat, p: string, j: nat, least: nat)
    requires Partial(m0, m, q, k, p, j, least)
    ensures Sized(m, q, k)
  {
  }

  lemma CellIx(m: seq<Byte>, q: string, k: nat, i: nat, c: nat)
    requires Sized(m, q, k) && i < Rows(q, k) && c <= |q|
    ensures i * (|q| + 1) + c < |m| && Cell(m, q, k, i, c) == m[i * (|q| + 1) + c] && Ix(q, i, c) == i * (|q| + 1) + c
  {
    IxIn(q, Rows(q, k), i, c);
  }

  lemma NextReads(m: seq<Byte>, q: string, k: nat, i: nat, j: nat, ch: char)
    requires Sized(m, q, k) && 0 < i < Rows(q, k) && j < |q|
    ensures var w := |q| + 1;
      var o, r := i * w, (i - 1) * w;
      && 0 <= r + j && r + j + 1 < |m| && o + j + 1 < |m| && Ix(q, i, j + 1) == o + j + 1
      && NextValue(m, q, k, i, j, ch) == Min3(m[r + j] as int + (if ch != q[j] then 1 else 0), m[r + j + 1] as int + 1, m[o + j] as int + 1)
  {
    CellIx(m, q, k, i, j);
    CellIx(m, q, k, i, j + 1);
    CellIx(m, q, k, i - 1, j);
    CellIx(m, q, k, i - 1, j + 1);
  }

  /** Fill the band of row `i` for the character `ch`; the smallest number met, or nothing
      where the matrix has no such row. */
  method FillRow(a: array<Byte>, q: string, k: nat, i: nat, ch: char, ghost p: string) returns (least: Option<nat>)
    requires 0 < i == |p| && ch == p[i - 1] && Sized(a[..], q, k)
    requires i < Rows(q, k) ==> Basis(a[..], q, k, p)
    modifies a
    ensures Sized(a[..], q, k)
    ensures i >= Rows(q, k) ==> a[..] == old(a[..]) && least == None
    ensures i < Rows(q, k) ==> Fixed(a[..], q, k) && SameBut(old(a[..]), a[..], q, k, i) && RowIs(a[..], q, k, p)
    ensures i < Rows(q, k) ==> least == Some(Least(q, k, p, High(q, k, i)))
    ensures least.Some? && least.value > k <==> Pruned(q, k, p)
  {
    hide Fixed, SameBut, Partial, Basis, Ix, RowIs, Pruned, Least;
    if i >= |q| + 1 + k {
      NoRow(q, k, p);
      return None;
    }
    ghost var m0 := a[..];
    BasisSize(m0, q, k, p);
    CellIx(m0, q, k, i, 0);
    var w := |q| + 1;
    var o, r := i * w, (i - 1) * w;
    var c: nat := a[o];
    var j, end := if i >= k + 1 then i - k - 1 else 0, if |q| <= i + k then |q| else i + k;
    PartialStart(m0, q, k, p);
    while j < end
      invariant Low(k, i) <= j <= end && Sized(a[..], q, k) && Partial(m0, a[..], q, k, p, j, c)
    {
      ghost var m := a[..];
      NextReads(m, q, k, i, j, ch);
      var x: nat, y: nat, z: nat := a[r + j], a[r + j + 1], a[o + j];
      var d := Min3(x + (if ch != q[j] then 1 else 0), y + 1, z + 1);
      PartialStep(m0, m, q, k, p, j, c, d);
      a[o + j + 1] := ToByte(d);
      assert a[..] == m[Ix(q, i, j + 1) := ToByte(d)];
      PartialSize(m0, a[..], q, k, p, j + 1, if d < c then d else c);
      if d < c { c := d; }
      j := j + 1;
    }
    PartialEnd(m0, a[..], q, k, p, c);
    least := Some(c);
  }

  lemma NoRow(q: string, k: nat, p: string)
    requires |p| >= Rows(q, k)
    ensures !Pruned(q, k, p)
  {
  }

  lemma BasisSize(m: seq<Byte>, q: string, k: nat, p: string)
    requires Basis(m, q, k, p)
    ensures Sized(m, q, k) && 0 < |p| < Rows(q, k)
  {
  }

  // ----- one label -----

  lemma RowedIs(m: seq<Byte>, q: string, k: nat, p: string)
    requires Rowed(m, q, k, p)
    ensures Sized(m, q, k) && Fixed(m, q, k) && SameUpTo(m, m, q, k, |p|)
  {
  }

  lemma RowedBasis(m: seq<Byte>, q: string, k: nat, p: string)
    requires p != "" && Rowed(m, q, k, p[..|p| - 1])
    ensures Sized(m, q, k) && (|p| < Rows(q, k) ==> Basis(m, q, k, p))
  {
    hide RowIs, Fixed;
    var p' := p[..|p| - 1];
    assert p'[..|p'|] == p';
  }

  lemma RowSame(m0: seq<Byte>, m: seq<Byte>, q: string, k: nat, p: string)
    requires Sized(m0, q, k) && Sized(m, q, k) && |p| < Rows(q, k) && RowIs(m0, q, k, p)
    requires forall c {:trigger Cell(m, q, k, |p|, c)} :: 0 <= c <= |q| ==> Cell(m, q, k, |p|, c) == Cell(m0, q, k, |p|, c)
    ensures RowIs(m, q, k, p)
  {
    hide Cell, Sized, CellOf;
  }

  lemma RowedStep(m0: seq<Byte>, m: seq<Byte>, q: string, k: nat, p: string)
    requires p != "" && Rowed(m0, q, k, p[..|p| - 1]) && Sized(m, q, k)
    requires |p| >= Rows(q, k) ==> m == m0
    requires |p| < Rows(q, k) ==> Fixed(m, q, k) && SameBut(m0, m, q, k, |p|) && RowIs(m, q, k, p)
    ensures Rowed(m, q, k, p) && SameUpTo(m0, m, q, k, |p| - 1)
  {
    hide RowIs, Cell, Fixed, Sized;
    var p' := p[..|p| - 1];
    forall r | 0 <= r <= |p| && r < Rows(q, k) ensures RowIs(m, q, k, p[..r]) {
      if r < |p| {
        assert p[..r] == p'[..r];
        RowSame(m0, m, q, k, p[..r]);
      } else {
        assert p[..r] == p;
      }
    }
  }

  lemma SameTrans(m0: seq<Byte>, m1: seq<Byte>, m2: seq<Byte>, q: string, k: nat, n: nat, n': nat)
    requires Sized(m0, q, k) && Sized(m1, q, k) && Sized(m2, q, k) && n <= n'
    requires SameUpTo(m0, m1, q, k, n) && SameUpTo(m1, m2, q, k, n')
    ensures SameUpTo(m0, m2, q, k, n)
  {
    hide Cell, Sized;
    forall r, c {:trigger Cell(m2, q, k, r, c)} | 0 <= r < Rows(q, k) && r <= n && 0 <= c <= |q|
      ensures Cell(m2, q, k, r, c) == Cell(m0, q, k, r, c)
    {
      assert Cell(m1, q, k, r, c) == Cell(m0, q, k, r, c);
    }
  }

  lemma RowedSame(m0: seq<Byte>, m: seq<Byte>, q: string, k: nat, p: string)
    requires Rowed(m0, q, k, p) && Sized(m, q, k) && Fixed(m, q, k) && SameUpTo(m0, m, q, k, |p|)
    ensures Rowed(m, q, k, p)
  {
    hide RowIs, Cell, Fixed, Sized;
    forall i | 0 <= i <= |p| && i < Rows(q, k) ensures RowIs(m, q, k, p[..i]) {
      RowSame(m0, m, q, k, p[..i]);
    }
  }

  /** Fill one row for each character of an edge label, and stop early when a row leaves no hope. */
  method Walk(a: array<Byte>, q: string, k: nat, edge: string, ghost key: string, row: nat) returns (pruned: bool)
    requires row == |key| + 1 && Rowed(a[..], q, k, key) && !Cut(q, k, key)
    modifies a
    ensures Sized(a[..], q, k) && Fixed(a[..], q, k)
    ensures Sized(old(a[..]), q, k) && SameUpTo(old(a[..]), a[..], q, k, |key|)
    ensures !pruned ==> Rowed(a[..], q, k, key + edge)
    ensures pruned <==> Cut(q, k, key + edge)
  {
    hide *;
    ghost var m0 := a[..];
    RowedIs(m0, q, k, key);
    var x := 0;
    assert key + edge[..0] == key;
    while x < |edge|
      invariant x <= |edge|
      invariant Rowed(a[..], q, k, key + edge[..x]) && !Cut(q, k, key + edge[..x])
      invariant Sized(m0, q, k) && Sized(a[..], q, k) && SameUpTo(m0, a[..], q, k, |key|)
    {
      ghost var m, p := a[..], key + edge[..x + 1];
      assert p[..|p| - 1] == key + edge[..x];
      var h := row + x;
      RowedBasis(m, q, k, p);
      var least := FillRow(a, q, k, h, edge[x], p);
      RowedStep(m, a[..], q, k, p);
      SameTrans(m0, m, a[..], q, k, |key|, h - 1);
      RowedIs(a[..], q, k, p);
      CutStep(q, k, p);
      if least.Some? && least.value > k {
        CutLonger(q, k, p, key + edge);
        return true;
      }
      x := x + 1;
    }
    assert edge[..x] == edge;
    RowedIs(a[..], q, k, key + edge);
    return false;
  }

  // ----- the whole tree -----

  type Hits<V> = map<string, (V, Byte)>

  function Hit<V>(hits: Hits<V>, x: string): Option<(V, Byte)> {
    if x in hits then Some(hits[x]) else None
  }

  /** The search below `key` reports `x` exactly if it is a key there and is to be reported. */
  ghost predicate OneOk<V>(hits0: Hits<V>, hits: Hits<V>, n: Tree<V>, key: string, q: string, k: nat, x: string) {
    Hit(hits, x) ==
      if key <= x && Lookup(n, x[|key|..]).Some? && Reported(q, k, x).Some?
      then Some((Lookup(n, x[|key|..]).value, Reported(q, k, x).value))
      else Hit(hits0, x)
  }

  ghost predicate Collects<V>(hits0: Hits<V>, hits: Hits<V>, n: Tree<V>, key: string, q: string, k: nat) {
    forall x {:trigger Hit(hits, x)} :: OneOk(hits0, hits, n, key, q, k, x)
  }

  ghost function Upto<V>(n: Tree<V>, i: nat): Tree<V>
    requires i <= |n.slots|
  {
    n.(slots := n.slots[..i])
  }

  lemma {:induction false} UptoCompressed<V>(n: Tree<V>, i: nat)
    requires Compressed(n) && i <= |n.slots|
    ensures Compressed(Upto(n, i))
  {
  }

  lemma UptoInit<V>(n: Tree<V>, i: nat)
    requires i < |n.slots|
    ensures var u := Upto(n, i + 1);
      |u.slots| == i + 1 && u.slots[i] == n.slots[i] && u.(slots := u.slots[..i]) == Upto(n, i)
  {
    assert n.slots[..i + 1][..i] == n.slots[..i];
  }

  /** Looking up with one more slot. */
  lemma LookupMore<V>(n: Tree<V>, i: nat, x: string)
    requires Compressed(n) && i < |n.slots|
    ensures n.slots[i].0 == "" <==> n.slots[i].1.Val?
    ensures var (e, c) := n.slots[i];
      if (if e == "" then x == "" else e <= x)
      then Lookup(Upto(n, i), x) == None && Lookup(Upto(n, i + 1), x) == if e == "" then Some(c.v) else Lookup(c.t, x[|e|..])
      else Lookup(Upto(n, i + 1), x) == Lookup(Upto(n, i), x)
  {
    hide Lookup, Upto;
    UptoCompressed(n, i + 1);
    UptoInit(n, i);
    LookupLast(Upto(n, i + 1), x);
    if (if n.slots[i].0 == "" then x == "" else n.slots[i].0 <= x) {
      LookupLastInit(Upto(n, i + 1), x);
    }
  }

  lemma CollectsAll<V>(hits0: Hits<V>, hits: Hits<V>, n: Tree<V>, key: string, q: string, k: nat)
    requires forall x :: OneOk(hits0, hits, n, key, q, k, x)
    ensures Collects(hits0, hits, n, key, q, k)
  {
  }

  lemma LeafStep<V>(hits0: Hits<V>, hits: Hits<V>, hits': Hits<V>, n: Tree<V>, i: nat, key: string, q: string, k: nat)
    requires Compressed(n) && i < |n.slots| && n.slots[i].0 == "" && n.slots[i].1.Val?
    requires hits' == if Reported(q, k, key).Some? then hits[key := (n.slots[i].1.v, Reported(q, k, key).value)] else hits
    requires Collects(hits0, hits, Upto(n, i), key, q, k)
    ensures Collects(hits0, hits', Upto(n, i + 1), key, q, k)
  {
    hide Compressed, Lookup, Upto, Reported;
    var u := Upto(n, i + 1);
    forall x ensures OneOk(hits0, hits', u, key, q, k, x) {
      var h := Hit(hits, x);
      assert OneOk(hits0, hits, Upto(n, i), key, q, k, x);
      if key <= x { LookupMore(n, i, x[|key|..]); }
      assert x == key <==> key <= x && x[|key|..] == "";
    }
    CollectsAll(hits0, hits', Upto(n, i + 1), key, q, k);
  }

  lemma EdgeStep<V>(hits0: Hits<V>, hits: Hits<V>, hits': Hits<V>, n: Tree<V>, i: nat, key: string, q: string, k: nat)
    requires Compressed(n) && i < |n.slots| && n.slots[i].0 != "" && n.slots[i].1.Sub?
    requires Collects(hits0, hits, Upto(n, i), key, q, k)
    requires
      || (hits' == hits && Cut(q, k, key + n.slots[i].0))
      || Collects(hits, hits', n.slots[i].1.t, key + n.slots[i].0, q, k)
    ensures Collects(hits0, hits', Upto(n, i + 1), key, q, k)
  {
    hide *;
    var u := Upto(n, i + 1);
    forall x ensures OneOk(hits0, hits', u, key, q, k, x) {
      EdgeStepAt(hits0, hits, hits', n, i, key, q, k, x);
    }
    CollectsAll(hits0, hits', Upto(n, i + 1), key, q, k);
  }

  lemma NotReported(q: string, k: nat, p: string, x: string)
    requires Cut(q, k, p) && p <= x
    ensures Reported(q, k, x) == None
  {
    CutLonger(q, k, p, x);
  }

  lemma EdgeStepAt<V>(hits0: Hits<V>, hits: Hits<V>, hits': Hits<V>, n: Tree<V>, i: nat, key: string, q: string, k: nat, x: string)
    requires Compressed(n) && i < |n.slots| && n.slots[i].0 != "" && n.slots[i].1.Sub?
    requires Collects(hits0, hits, Upto(n, i), key, q, k)
    requires
      || (hits' == hits && Cut(q, k, key + n.slots[i].0))
      || Collects(hits, hits', n.slots[i].1.t, key + n.slots[i].0, q, k)
    ensures OneOk(hits0, hits', Upto(n, i + 1), key, q, k, x)
  {
    hide Compressed, Lookup, Upto, Cut, Reported;
    var e := n.slots[i].0;
    var h, h' := Hit(hits, x), Hit(hits', x);
    assert OneOk(hits0, hits, Upto(n, i), key, q, k, x);
    if key + e <= x {
      Under(key, e, x);
      if Cut(q, k, key + e) { NotReported(q, k, key + e, x); }
    }
    if key <= x {
      LookupMore(n, i, x[|key|..]);
      if e <= x[|key|..] { Over(key, e, x); }
    }
  }

  lemma Over(p: string, n: string, k: string)
    requires p <= k && n <= k[|p|..]
    ensures p + n <= k
  {
  }

  lemma CollectsStart<V>(hits: Hits<V>, n: Tree<V>, key: string, q: string, k: nat)
    ensures Collects(hits, hits, Upto(n, 0), key, q, k)
  {
    hide Reported;
    forall x ensures Lookup(Upto(n, 0), x) == None {
    }
    forall x ensures OneOk(hits, hits, Upto(n, 0), key, q, k, x) {
    }
    CollectsAll(hits, hits, Upto(n, 0), key, q, k);
  }

  /** The last cell of the row decides. */
  lemma CellLast(m: seq<Byte>, q: string, k: nat, p: string, row: nat)
    requires row == |p| + 1 && Rowed(m, q, k, p) && !Cut(q, k, p)
    ensures var h := row * (|q| + 1);
      && h > 0
      && Reported(q, k, p) == if h - 1 < |m| && m[h - 1] <= k then Some(m[h - 1]) else None
  {
    hide Cut, CellOf;
    var w := |q| + 1;
    if |p| < Rows(q, k) {
      CellIx(m, q, k, |p|, |q|);
      assert row * w == |p| * w + w;
      assert p[..|p|] == p;
      assert RowIs(m, q, k, p);
    } else {
      assert row * w == Rows(q, k) * w + (row - Rows(q, k)) * w;
      assert (row - Rows(q, k)) * w >= w;
    }
  }

  lemma NodeHere<V>(m: RadixMap<V>, key: string, n: Tree<V>)
    requires m.Valid() && At(m.tree, key) == Some(n) && Compressed(n)
    ensures n.ref in m.store && m.store[n.ref] == Flat(n.slots) && |m.store[n.ref]| == |n.slots|
  {
  }

  lemma SlotHere<V>(m: RadixMap<V>, key: string, n: Tree<V>, i: nat)
    requires m.Valid() && At(m.tree, key) == Some(n) && Compressed(n) && i < |n.slots|
    ensures var (e, c) := n.slots[i];
      && Flat(n.slots)[i] == (e, RadixStore.Cell(c))
      && (if e == "" then c.Val? && RadixStore.Cell(c) == Leaf(c.v)
          else c.Sub? && RadixStore.Cell(c) == Link(c.t.ref) && Compressed(c.t) && At(m.tree, key + e) == Some(c.t))
  {
    if n.slots[i].0 != "" {
      AtLabel(n, i);
      AtConcat(m.tree, key, n.slots[i].0);
    }
  }

  lemma UptoAll<V>(n: Tree<V>)
    ensures Upto(n, |n.slots|) == n
  {
    assert n.slots[..|n.slots|] == n.slots;
  }

  /** `st`: walk the tree and report every key below `key` that is to be reported. */
  method Search<V>(m: RadixMap<V>, t: Ref, q: string, k: nat, hits0: Hits<V>, a: array<Byte>, row: nat, key: string, ghost n: Tree<V>)
    returns (hits: Hits<V>)
    requires m.Valid() && At(m.tree, key) == Some(n) && n.ref == t && Compressed(n)
    requires row == |key| + 1 && Rowed(a[..], q, k, key) && !Cut(q, k, key)
    modifies a
    ensures Sized(a[..], q, k) && Fixed(a[..], q, k)
    ensures Sized(old(a[..]), q, k) && SameUpTo(old(a[..]), a[..], q, k, |key|)
    ensures Collects(hits0, hits, n, key, q, k)
    decreases n
  {
    hide *;
    hits := hits0;
    var h := row * (|q| + 1);
    ghost var m0 := a[..];
    NodeHere(m, key, n);
    RowedIs(m0, q, k, key);
    CollectsStart(hits0, n, key, q, k);
    var here := m.store[t];
    var i := 0;
    while i < |here|
      invariant i <= |here| == |n.slots|
      invariant Rowed(a[..], q, k, key)
      invariant Sized(m0, q, k) && Sized(a[..], q, k) && SameUpTo(m0, a[..], q, k, |key|)
      invariant Collects(hits0, hits, Upto(n, i), key, q, k)
    {
      ghost var before := hits;
      ghost var m1 := a[..];
      SlotHere(m, key, n, i);
      var (edge, slot) := here[i];
      if edge == "" {
        CellLast(m1, q, k, key, row);
        if h - 1 < a.Length && a[h - 1] <= k {
          hits := hits[key := (slot.v, a[h - 1])];
        }
        LeafStep(hits0, before, hits, n, i, key, q, k);
      } else {
        var pruned := Walk(a, q, k, edge, key, row);
        if !pruned {
          ghost var m2 := a[..];
          hits := Search(m, slot.ref, q, k, hits, a, row + |edge|, key + edge, n.slots[i].1.t);
          SameTrans(m1, m2, a[..], q, k, |key|, |key + edge|);
        }
        EdgeStep(hits0, before, hits, n, i, key, q, k);
        RowedSame(m1, a[..], q, k, key);
        SameTrans(m0, m1, a[..], q, k, |key|, |key|);
      }
      i := i + 1;
    }
    UptoAll(n);
    RowedIs(a[..], q, k, key);
  }

  // ----- the approximate lookup -----

  /** Row 0 is set up to position `t`. */
  ghost predicate TopSet(m: seq<Byte>, q: string, k: nat, t: nat) {
    forall x :: 0 <= x < |m| ==> m[x] == if x <= |q| && x < t then ToByte(x) else ToByte(k + 1)
  }

  /** Column 0 is set up to row `t`, too. */
  ghost predicate SideSet(m: seq<Byte>, q: string, k: nat, t: nat) {
    && Sized(m, q, k)
    && forall r, c {:trigger Cell(m, q, k, r, c)} :: 0 <= r < Rows(q, k) && 0 <= c <= |q| ==>
         Cell(m, q, k, r, c) == if r == 0 then ToByte(c) else if c == 0 && r < t then ToByte(r) else ToByte(k + 1)
  }

  lemma SideStart(m: seq<Byte>, q: string, k: nat)
    requires Sized(m, q, k) && TopSet(m, q, k, |q| + 1)
    ensures SideSet(m, q, k, 1)
  {
    hide Cell, Ix, Sized, ToByte, TopSet;
    forall r, c {:trigger Cell(m, q, k, r, c)} | 0 <= r < Rows(q, k) && 0 <= c <= |q|
      ensures Cell(m, q, k, r, c) == if r == 0 then ToByte(c) else ToByte(k + 1)
    {
      TopCell(m, q, k, r, c);
    }
  }

  lemma TopCell(m: seq<Byte>, q: string, k: nat, r: nat, c: nat)
    requires Sized(m, q, k) && TopSet(m, q, k, |q| + 1) && r < Rows(q, k) && c <= |q|
    ensures Cell(m, q, k, r, c) == if r == 0 then ToByte(c) else ToByte(k + 1)
  {
    hide *;
    CellIx(m, q, k, r, c);
    PastTop(|q| + 1, r);
    TopEntry(m, q, k, r * (|q| + 1) + c);
    assert 0 * (|q| + 1) == 0;
  }

  lemma PastTop(w: nat, r: nat)
    ensures r > 0 ==> r * w >= w
  {
  }

  lemma TopEntry(m: seq<Byte>, q: string, k: nat, x: nat)
    requires TopSet(m, q, k, |q| + 1) && x < |m|
    ensures m[x] == if x <= |q| then ToByte(x) else ToByte(k + 1)
  {
  }

  lemma SideStep(m: seq<Byte>, q: string, k: nat, t: nat)
    requires SideSet(m, q, k, t) && 0 < t < Rows(q, k)
    ensures t * (|q| + 1) < |m| && SideSet(m[t * (|q| + 1) := ToByte(t)], q, k, t + 1)
  {
    hide Cell, Ix, Sized;
    CellIx(m, q, k, t, 0);
    WriteCell(m, q, k, t, 0, ToByte(t));
  }

  lemma SideEnd(m: seq<Byte>, q: string, k: nat)
    requires SideSet(m, q, k, Rows(q, k))
    ensures Sized(m, q, k) && Fixed(m, q, k)
  {
    hide Cell, Ix, Sized;
  }

  /** The matrix before the search: row 0, column 0, and a number that is too large everywhere else. */
  method NewMatrix(q: string, k: nat) returns (a: array<Byte>)
    ensures fresh(a) && Sized(a[..], q, k) && Fixed(a[..], q, k)
    ensures SideSet(a[..], q, k, Rows(q, k))
  {
    hide Cell, Ix, Sized, Fixed, SideSet;
    var n := |q| + 1;
    var o := n + k;
    RowsFit(q, k);
    a := new Byte[o * n](_ => ToByte(k + 1));
    var t := 0;
    while t < n
      invariant t <= n && TopSet(a[..], q, k, t)
    {
      a[t] := ToByte(t);
      t := t + 1;
    }
    IsSized(a[..], q, k);
    SideStart(a[..], q, k);
    t := 1;
    while t < o
      invariant 1 <= t <= o && SideSet(a[..], q, k, t)
    {
      ghost var m := a[..];
      SideStep(m, q, k, t);
      a[t * n] := ToByte(t);
      assert a[..] == m[t * n := ToByte(t)];
      t := t + 1;
    }
    SideEnd(a[..], q, k);
  }

  lemma IsSized(m: seq<Byte>, q: string, k: nat)
    requires |m| == Ix(q, Rows(q, k), 0)
    ensures Sized(m, q, k)
  {
  }

  lemma RowsFit(q: string, k: nat)
    ensures (|q| + 1 + k) * (|q| + 1) == Ix(q, Rows(q, k), 0) >= |q| + 1
  {
  }

  lemma RowedStart(m: seq<Byte>, q: string, k: nat)
    requires Sized(m, q, k) && Fixed(m, q, k)
    ensures Rowed(m, q, k, "") && !Cut(q, k, "")
  {
    hide Sized, Cell, Start;
    assert RowIs(m, q, k, ""[..0]);
  }

  /** Which keys are reported, and at which distance. */
  ghost predicate Reporting<V>(hits: Hits<V>, content: map<string, V>, q: string, k: nat) {
    forall x {:trigger x in hits} ::
      && (x in hits <==> x in content && Reported(q, k, x).Some?)
      && (x in hits ==> hits[x] == (content[x], Reported(q, k, x).value))
  }

  /** `fuzzyGet(q, k)`: whatever the tree looks like, each key is judged by itself. */
  method FuzzyGet<V>(m: RadixMap<V>, q: string, k: nat) returns (hits: Hits<V>)
    requires m.Valid()
    ensures Reporting(hits, m.Content(), q, k)
  {
    hide *;
    m.AtRoot();
    var a := NewMatrix(q, k);
    RowedStart(a[..], q, k);
    hits := Search(m, m.root, q, k, map[], a, 1, "", m.tree);
    Found(m, hits, q, k);
  }

  lemma Found<V>(m: RadixMap<V>, hits: Hits<V>, q: string, k: nat)
    requires m.Valid() && Collects(map[], hits, m.tree, "", q, k)
    ensures Reporting(hits, m.Content(), q, k)
  {
    hide Lookup, Compressed, Rep, Reported;
    forall x {:trigger x in hits}
      ensures x in hits <==> x in m.Content() && Reported(q, k, x).Some?
      ensures x in hits ==> hits[x] == (m.Content()[x], Reported(q, k, x).value)
    {
      var h := Hit(hits, x);
      assert x[0..] == x;
      assert OneOk(map[], hits, m.tree, "", q, k, x);
    }
  }
}

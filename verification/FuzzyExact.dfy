/** What the approximate lookup reports, compared with the edit distance: for which lengths of the
    query and which bounds bytes are wide enough, and what goes wrong for all others. */
module FuzzyExact {
  import opened JsMaps
  import opened Levenshtein
  import opened FuzzySearch

  /** Queries and bounds for which bytes are wide enough. With a small bound no number overflows, however long the query is. */
  predicate Fits(n: nat, k: nat) {
    k <= 126 || n + 2 * k <= 510
  }

  /** What is reported of `x` is right: it is reported exactly if it is within `k` edits, with its distance. */
  ghost predicate Right(q: string, k: nat, x: string) {
    && (Reported(q, k, x).Some? <==> Lev(x, q) <= k)
    && (Reported(q, k, x).Some? ==> Reported(q, k, x).value as int == Lev(x, q))
  }

  // ----- how large numbers get -----

  function Gap(i: nat, c: nat): nat { if i <= c then c - i else i - c }

  /** A cell of the band, or one off the band. */
  predicate Near(k: nat, i: nat, c: nat) { Gap(i, c) <= k + 1 }

  /** Numbers grow along the diagonal, but no further than the distance to the edges of the band lets them. */
  function Cap(k: nat, i: nat, c: nat): int {
    var far := if i <= c then c else i;
    var edge := 2 * k + 2 - Gap(i, c);
    if far <= edge then far else edge
  }

  lemma CapStep(k: nat, i: nat, c: nat, v0: int, v1: int, v2: int)
    requires 0 < i && 0 < c && !Off(i, c, k)
    requires v0 <= Cap(k, i - 1, c - 1) && v1 <= Cap(k, i - 1, c) && v2 <= Cap(k, i, c - 1)
    ensures v0 + 1 <= Cap(k, i, c) || v1 + 1 <= Cap(k, i, c) || v2 + 1 <= Cap(k, i, c)
  {
  }

  lemma StartCap(k: nat, i: nat, c: nat)
    requires k <= 254 && Near(k, i, c) && (i == 0 || c == 0 || Off(i, c, k))
    ensures Start(i, c, k) <= Cap(k, i, c)
  {
  }

  lemma CellIs(q: string, k: nat, p: string, c: nat)
    requires c <= |q|
    ensures CellOf(q, k, p, c) ==
      if p == "" || c == 0 || Off(|p|, c, k) then Start(|p|, c, k) else ToByte(Number(q, k, p, c))
  {
    hide Number;
  }

  lemma NumberIs(q: string, k: nat, p: string, c: nat)
    requires p != "" && 0 < c <= |q|
    ensures var p' := p[..|p| - 1];
      Number(q, k, p, c) == Min3(CellOf(q, k, p', c - 1) + (if p[|p| - 1] != q[c - 1] then 1 else 0),
        CellOf(q, k, p', c) + 1, CellOf(q, k, p, c - 1) + 1)
  {
    hide CellOf;
  }

  lemma {:induction false} CellCap(q: string, k: nat, p: string, c: nat)
    requires k <= 254 && c <= |q| && Near(k, |p|, c)
    ensures CellOf(q, k, p, c) <= Cap(k, |p|, c)
    ensures p != "" && 0 < c && !Off(|p|, c, k) ==> Number(q, k, p, c) <= Cap(k, |p|, c)
    decreases |p|, c
  {
    hide CellOf, Number, Cap, Start;
    CellIs(q, k, p, c);
    if p == "" || c == 0 || Off(|p|, c, k) {
      StartCap(k, |p|, c);
    } else {
      var p' := p[..|p| - 1];
      CellCap(q, k, p', c - 1);
      CellCap(q, k, p', c);
      CellCap(q, k, p, c - 1);
      NumberIs(q, k, p, c);
      CapStep(k, |p|, c, CellOf(q, k, p', c - 1), CellOf(q, k, p', c), CellOf(q, k, p, c - 1));
    }
  }

  // ----- the row minimum -----

  /** The row minimum is no larger than the first column and the numbers met. */
  lemma {:induction false} LeastBelow(q: string, k: nat, p: string, j: nat, c: nat)
    requires p != "" && j <= |q| && c <= j
    ensures Least(q, k, p, j) <= Start(|p|, 0, k)
    ensures Low(k, |p|) < c ==> Least(q, k, p, j) <= Number(q, k, p, c)
    decreases j
  {
    hide Number, Start;
    if j > Low(k, |p|) {
      LeastBelow(q, k, p, j - 1, if c == j then 0 else c);
    }
  }

  /** A row with a number within the bound is not pruned. */
  lemma NotPruned(q: string, k: nat, p: string, c: nat)
    requires 0 < |p| < Rows(q, k) && c <= |q|
    requires Start(|p|, 0, k) <= k || (0 < c && !Off(|p|, c, k) && Number(q, k, p, c) <= k)
    ensures !Pruned(q, k, p)
  {
    hide Number, Start, Least;
    LeastBelow(q, k, p, High(q, k, |p|), if c <= High(q, k, |p|) then c else 0);
  }

  // ----- the one cell that might overflow -----

  /** Where the bytes are just wide enough, one cell in row 256 would overflow if row 255 had been given up. */
  predicate Narrow(n: nat, k: nat) { k >= 127 && n + 2 * k == 510 }

  ghost predicate Spared(q: string, k: nat, p: string) {
    Narrow(|q|, k) && |p| >= 256 ==> !Pruned(q, k, p[..255])
  }

  lemma SparedInit(q: string, k: nat, p: string)
    requires p != "" && Spared(q, k, p)
    ensures Spared(q, k, p[..|p| - 1])
  {
    hide Pruned;
    var p' := p[..|p| - 1];
    if |p'| >= 256 { assert p'[..255] == p[..255]; }
  }

  lemma {:induction false} Slope(q: string, k: nat, p: string, j: nat)
    requires 127 <= k <= 254 && |p| == 255 && j <= |q| && Least(q, k, p, j) <= k
    ensures j >= 255 - k && CellOf(q, k, p, j) <= k + (j - (255 - k))
    decreases j
  {
    hide Number;
    assert j > Low(k, |p|);
    var d := Number(q, k, p, j);
    if j <= 255 + k { assert CellOf(q, k, p, j) == ToByte(d) <= d; }
    NumberBelow(q, k, p, j);
    if d > k { Slope(q, k, p, j - 1); }
    hide CellOf;
  }

  lemma NumberBelow(q: string, k: nat, p: string, c: nat)
    requires p != "" && 0 < c <= |q|
    ensures Number(q, k, p, c) <= CellOf(q, k, p, c - 1) + 1
    ensures Number(q, k, p, c) <= CellOf(q, k, p[..|p| - 1], c) + 1
    ensures Number(q, k, p, c) <= CellOf(q, k, p[..|p| - 1], c - 1) + (if p[|p| - 1] != q[c - 1] then 1 else 0)
  {
    hide CellOf;
  }

  lemma Slack(q: string, k: nat, p: string)
    requires Narrow(|q|, k) && k <= 254 && |p| == 255 && !Pruned(q, k, p)
    ensures CellOf(q, k, p, |q| - 1) <= 254 || CellOf(q, k, p, |q|) <= 254
  {
    hide Number;
    var n := |q|;
    assert High(q, k, |p|) == n && Low(k, |p|) < n;
    if Least(q, k, p, n - 1) <= k {
      Slope(q, k, p, n - 1);
    } else {
      assert CellOf(q, k, p, n) == ToByte(Number(q, k, p, n));
    }
    hide CellOf;
  }

  /** Where bytes are wide enough nothing overflows. */
  lemma NoOverflow(q: string, k: nat, p: string, c: nat)
    requires Fits(|q|, k) && 0 < |p| <= |q| + k && 0 < c <= |q| && !Off(|p|, c, k) && Spared(q, k, p)
    ensures Number(q, k, p, c) <= 255 && CellOf(q, k, p, c) == Number(q, k, p, c)
  {
    hide Least, Number, Pruned;
    CellCap(q, k, p, c);
    if Cap(k, |p|, c) > 255 {
      assert Narrow(|q|, k) && |p| == 256 && c == |q|;
      assert p[..255] == p[..|p| - 1];
      Slack(q, k, p[..255]);
      NumberBelow(q, k, p, c);
    }
  }

  // ----- bytes that are wide enough -----

  /** Equal as far as the bound can tell. */
  ghost predicate Agree(v: nat, d: nat, k: nat) {
    v <= k || d <= k ==> v == d
  }

  lemma StartAgrees(q: string, k: nat, p: string, c: nat)
    requires Fits(|q|, k) && q != "" && c <= |q| && Near(k, |p|, c) && (p == "" || c == 0 || Off(|p|, c, k))
    ensures Agree(Start(|p|, c, k), Lev(p, q[..c]), k)
  {
    hide Lev;
    LevBounds(p, q[..c]);
  }

  lemma LevLast(p: string, q: string, i: nat, j: nat)
    requires 0 < i <= |p| && j < |q|
    ensures Lev(p[..i], q[..j + 1]) ==
      Min3(Lev(p[..i - 1], q[..j]) + (if p[i - 1] == q[j] then 0 else 1), Lev(p[..i - 1], q[..j + 1]) + 1, Lev(p[..i], q[..j]) + 1)
  {
    assert p[..i][..i - 1] == p[..i - 1] && q[..j + 1][..j] == q[..j];
    assert p[..i][i - 1] == p[i - 1] && q[..j + 1][j] == q[j];
  }

  lemma LevStep(p: string, q: string, c: nat)
    requires p != "" && 0 < c <= |q|
    ensures Lev(p, q[..c]) ==
      Min3(Lev(p[..|p| - 1], q[..c - 1]) + (if p[|p| - 1] == q[c - 1] then 0 else 1), Lev(p[..|p| - 1], q[..c]) + 1, Lev(p, q[..c - 1]) + 1)
  {
    hide Lev;
    assert p[..|p|] == p;
    LevLast(p, q, |p|, c - 1);
  }

  lemma {:induction false} CellAgrees(q: string, k: nat, p: string, c: nat)
    requires Fits(|q|, k) && q != "" && |p| <= |q| + k && c <= |q| && Near(k, |p|, c) && Spared(q, k, p)
    ensures Agree(CellOf(q, k, p, c), Lev(p, q[..c]), k)
    decreases |p|, c
  {
    hide Lev, Spared, Number, Fits, Start;
    if p == "" || c == 0 || Off(|p|, c, k) {
      StartAgrees(q, k, p, c);
    } else {
      hide CellOf;
      var p' := p[..|p| - 1];
      SparedInit(q, k, p);
      CellAgrees(q, k, p', c - 1);
      CellAgrees(q, k, p', c);
      CellAgrees(q, k, p, c - 1);
      NoOverflow(q, k, p, c);
      LevStep(p, q, c);
      NumberIs(q, k, p, c);
    }
  }

  /** A row that is given up is too far from every prefix of the query. */
  lemma PrunedFar(q: string, k: nat, p: string, c: nat)
    requires Fits(|q|, k) && q != "" && Spared(q, k, p) && Pruned(q, k, p) && c <= |q|
    ensures Lev(p, q[..c]) > k
  {
    hide Lev, Number, Least, Spared, Fits, CellOf;
    LevBounds(p, q[..c]);
    LeastBelow(q, k, p, High(q, k, |p|), if c <= High(q, k, |p|) then c else 0);
    if 0 < c && !Off(|p|, c, k) {
      NoOverflow(q, k, p, c);
      CellAgrees(q, k, p, c);
    }
  }

  /** The first row that is given up. */
  lemma {:induction false} FirstPruned(q: string, k: nat, x: string) returns (i: nat)
    requires Cut(q, k, x)
    ensures 0 < i <= |x| && Pruned(q, k, x[..i]) && forall h :: 0 < h < i ==> !Pruned(q, k, x[..h])
    decreases |x|
  {
    hide Pruned;
    var x' := x[..|x| - 1];
    CutStep(q, k, x);
    if Cut(q, k, x') {
      i := FirstPruned(q, k, x');
      forall h | 0 < h <= i ensures x'[..h] == x[..h] {
      }
    } else {
      i := |x|;
      assert x[..|x|] == x;
      forall h | 0 < h < i ensures !Pruned(q, k, x[..h]) {
        assert x'[..h] == x[..h];
      }
    }
  }

  lemma CutFar(q: string, k: nat, x: string)
    requires Fits(|q|, k) && q != "" && Cut(q, k, x)
    ensures Lev(x, q) > k
  {
    hide Lev, Fits, Pruned, Cut;
    var i := FirstPruned(q, k, x);
    var p := x[..i];
    if |p| >= 256 { assert p[..255] == x[..255]; }
    var c := NoCloser(p, x[i..], q);
    assert p + x[i..] == x;
    PrunedFar(q, k, p, c);
  }

  lemma {:induction false} EmptyQuery(k: nat, x: string)
    requires k <= 255
    ensures Right("", k, x)
  {
    hide Least;
    forall i | 0 < i <= |x| ensures !Pruned("", k, x[..i]) {
      if i < Rows("", k) { NotPruned("", k, x[..i], 0); }
    }
  }

  lemma LastAgrees(q: string, k: nat, x: string)
    requires Fits(|q|, k) && q != "" && x != "" && !Cut(q, k, x) && |x| < Rows(q, k)
    ensures Agree(CellOf(q, k, x, |q|), Lev(x, q), k)
  {
    hide Lev, Pruned;
    assert q[..|q|] == q;
    if Off(|x|, |q|, k) {
      LevBounds(x, q);
      assert CellOf(q, k, x, |q|) == Start(|x|, |q|, k);
    } else {
      hide CellOf;
      CellAgrees(q, k, x, |q|);
    }
  }

  /** Where bytes are wide enough, what is reported of a non-empty key is right. */
  lemma FitsRight(q: string, k: nat, x: string)
    requires Fits(|q|, k) && x != ""
    ensures Right(q, k, x)
  {
    hide Lev, Cut, CellOf;
    if q == "" {
      EmptyQuery(k, x);
    } else if Cut(q, k, x) {
      CutFar(q, k, x);
    } else if |x| < Rows(q, k) {
      LastAgrees(q, k, x);
    } else {
      LevBounds(x, q);
    }
  }

  // ----- bytes that are not -----

  /** Lengths and bounds for which a word goes wrong although its bound fits a byte. */
  predicate Wide(n: nat, k: nat) { 127 <= k <= 254 && n + 2 * k >= 511 }

  /** The row and the column of the number that overflows. */
  function Extra(k: nat): nat { if k == 127 then 1 else 0 }

  function BadRow(k: nat): nat { 256 + Extra(k) }

  function BadColumn(k: nat): nat
    requires k <= 254
  {
    511 - 2 * k
  }

  /** A query of two letters, */
  function Query(n: nat, k: nat): (q: string)
    requires k <= 254
    ensures |q| == n
  {
    seq(n, c => if c < 255 - k then 'a' else 'b')
  }

  function LetterOf(k: nat, i: int): char {
    if i < k then 'm' else if i < 255 then 'a' else if i < BadRow(k) then 'm' else 'b'
  }

  /** and a key with a third. */
  function Key(n: nat, k: nat): (x: string)
    requires Wide(n, k)
    ensures |x| == BadRow(k) + n - BadColumn(k)
  {
    seq(BadRow(k) + n - BadColumn(k), i => LetterOf(k, i))
  }

  lemma RowLetter(n: nat, k: nat, i: nat)
    requires Wide(n, k) && 0 < i <= |Key(n, k)|
    ensures var p := Key(n, k)[..i]; p[..|p| - 1] == Key(n, k)[..i - 1] && p[|p| - 1] == LetterOf(k, i - 1)
  {
    var p := Key(n, k)[..i];
    assert p[..|p| - 1] == Key(n, k)[..i - 1];
  }

  /** The recurrence for this key. */
  ghost function At(n: nat, k: nat, i: nat, c: nat): Byte
    requires Wide(n, k) && i <= |Key(n, k)| && c <= n
  {
    CellOf(Query(n, k), k, Key(n, k)[..i], c)
  }

  ghost function NumberAt(n: nat, k: nat, i: nat, c: nat): nat
    requires Wide(n, k) && 0 < i <= |Key(n, k)| && 0 < c <= n
  {
    Number(Query(n, k), k, Key(n, k)[..i], c)
  }

  predicate Matching(k: nat, i: nat, c: nat)
    requires k <= 254
  {
    if c <= 255 - k then k < i <= 255 else i > BadRow(k)
  }

  lemma NumberAtIs(n: nat, k: nat, i: nat, c: nat)
    requires Wide(n, k) && 0 < i <= |Key(n, k)| && 0 < c <= n
    ensures NumberAt(n, k, i, c) ==
      Min3(At(n, k, i - 1, c - 1) + (if Matching(k, i, c) then 0 else 1), At(n, k, i - 1, c) + 1, At(n, k, i, c - 1) + 1)
  {
    hide CellOf, Number;
    RowLetter(n, k, i);
    NumberIs(Query(n, k), k, Key(n, k)[..i], c);
  }

  lemma AtIs(n: nat, k: nat, i: nat, c: nat)
    requires Wide(n, k) && i <= |Key(n, k)| && c <= n
    ensures At(n, k, i, c) == if i == 0 || c == 0 || Off(i, c, k) then Start(i, c, k) else ToByte(NumberAt(n, k, i, c))
  {
    hide Number;
    CellIs(Query(n, k), k, Key(n, k)[..i], c);
  }

  lemma AtCap(n: nat, k: nat, i: nat, c: nat)
    requires Wide(n, k) && 0 < i <= |Key(n, k)| && 0 < c <= n && !Off(i, c, k)
    ensures NumberAt(n, k, i, c) <= Cap(k, i, c)
  {
    hide CellOf, Number, Cap;
    CellCap(Query(n, k), k, Key(n, k)[..i], c);
  }

  lemma Sizes(n: nat, k: nat)
    requires Wide(n, k)
    ensures BadRow(k) <= |Key(n, k)| < n + 1 + k && 255 - k < BadColumn(k) <= n
  {
  }

  /** The first letters match with a shift of `k`. */
  lemma {:induction false} Shifted(n: nat, k: nat, t: nat)
    requires Wide(n, k) && t <= 255 - k
    ensures t <= n && k + t <= |Key(n, k)| && At(n, k, k + t, t) <= k && (t > 0 ==> NumberAt(n, k, k + t, t) <= k)
  {
    hide At, NumberAt, Key;
    Sizes(n, k);
    AtIs(n, k, k + t, t);
    if t > 0 {
      Shifted(n, k, t - 1);
      NumberAtIs(n, k, k + t, t);
    }
  }

  /** From there numbers can grow by one for each column. */
  lemma {:induction false} Rising(n: nat, k: nat, i: nat, c: nat)
    requires Wide(n, k) && 255 <= i <= BadRow(k) && 255 - k + (i - 255) <= c <= BadColumn(k)
    ensures i <= |Key(n, k)| && c <= n && At(n, k, i, c) <= k + c - (255 - k)
    ensures i > 255 ==> NumberAt(n, k, i, c) <= k + c - (255 - k)
    decreases i, c
  {
    hide At, NumberAt, Key;
    Sizes(n, k);
    AtIs(n, k, i, c);
    if i == 255 && c == 255 - k {
      Shifted(n, k, 255 - k);
    } else {
      NumberAtIs(n, k, i, c);
      if c > 255 - k + (i - 255) { Rising(n, k, i, c - 1); } else { Rising(n, k, i - 1, c - 1); }
      assert !Off(i, c, k) by { Steep(k, i, c); }
    }
  }

  lemma Steep(k: nat, i: nat, c: nat)
    requires 127 <= k <= 254 && 255 <= i <= BadRow(k) && 255 - k + (i - 255) <= c <= BadColumn(k)
    ensures !Off(i, c, k)
  {
  }

  /** Before the bad cell nothing overflows. */
  lemma Before(n: nat, k: nat, i: nat, c: nat)
    requires Wide(n, k) && 0 < i <= BadRow(k) && 0 < c <= BadColumn(k) && !Off(i, c, k) && !(i == BadRow(k) && c == BadColumn(k))
    ensures i <= |Key(n, k)| && c <= n && NumberAt(n, k, i, c) <= 255
  {
    hide At, NumberAt, Key;
    Sizes(n, k);
    AtCap(n, k, i, c);
    if i > 255 && c < BadColumn(k) { Rising(n, k, i, c); }
  }

  /** A lower bound for the numbers: what is missing to 256 cannot be caught up on the way to the bad cell. */
  function Floor(k: nat, i: nat, c: nat): int
    requires k <= 254
  {
    var (a, b) := if c <= 255 - k then (i as int, k as int) else (i - Extra(k), c + 2 * k - 255);
    if a <= b then a else b
  }

  lemma FloorStep(k: nat, i: nat, c: nat)
    requires 127 <= k <= 254 && 0 < i <= BadRow(k) && 0 < c <= BadColumn(k)
    ensures Floor(k, i, c) <= Floor(k, i - 1, c - 1) + (if Matching(k, i, c) then 0 else 1)
    ensures Floor(k, i, c) <= Floor(k, i - 1, c) + 1 && Floor(k, i, c) <= Floor(k, i, c - 1) + 1
  {
  }

  lemma FloorStart(k: nat, i: nat, c: nat)
    requires 127 <= k <= 254 && i <= BadRow(k) && c <= BadColumn(k) && Near(k, i, c) && (i == 0 || c == 0 || Off(i, c, k))
    ensures Floor(k, i, c) <= Start(i, c, k)
  {
  }

  lemma {:induction false} AboveFloor(n: nat, k: nat, i: nat, c: nat)
    requires Wide(n, k) && i <= BadRow(k) && c <= BadColumn(k) && Near(k, i, c)
    ensures i <= |Key(n, k)| && c <= n
    ensures i > 0 && c > 0 && !Off(i, c, k) ==> NumberAt(n, k, i, c) >= Floor(k, i, c)
    ensures !(i == BadRow(k) && c == BadColumn(k)) ==> At(n, k, i, c) >= Floor(k, i, c)
    decreases i, c
  {
    hide At, NumberAt, Key, Floor, Start, Matching;
    Sizes(n, k);
    AtIs(n, k, i, c);
    if i == 0 || c == 0 || Off(i, c, k) {
      FloorStart(k, i, c);
    } else {
      AboveFloor(n, k, i - 1, c - 1);
      AboveFloor(n, k, i - 1, c);
      AboveFloor(n, k, i, c - 1);
      NumberAtIs(n, k, i, c);
      FloorStep(k, i, c);
      if !(i == BadRow(k) && c == BadColumn(k)) { Before(n, k, i, c); }
    }
  }

  /** The overflow, and the zeros that follow along the diagonal. */
  lemma {:induction false} Zeros(n: nat, k: nat, t: nat)
    requires Wide(n, k) && t <= n - BadColumn(k)
    ensures BadRow(k) + t <= |Key(n, k)| && At(n, k, BadRow(k) + t, BadColumn(k) + t) == 0
    ensures t > 0 ==> NumberAt(n, k, BadRow(k) + t, BadColumn(k) + t) == 0
  {
    hide At, NumberAt, Key;
    Sizes(n, k);
    var i, c := BadRow(k) + t, BadColumn(k) + t;
    KeySize(n, k);
    AtIs(n, k, i, c);
    if t == 0 {
      Rising(n, k, i, c);
      AboveFloor(n, k, i, c);
      assert NumberAt(n, k, i, c) == 256;
    } else {
      Zeros(n, k, t - 1);
      NumberAtIs(n, k, i, c);
    }
  }

  lemma KeySize(n: nat, k: nat)
    requires Wide(n, k)
    ensures |Key(n, k)| == BadRow(k) + n - BadColumn(k)
  {
  }

  /** No row of the key is given up. */
  lemma Survives(n: nat, k: nat, i: nat)
    requires Wide(n, k) && 0 < i <= |Key(n, k)|
    ensures !Pruned(Query(n, k), k, Key(n, k)[..i])
  {
    hide CellOf, Number, Key, Pruned;
    Sizes(n, k);
    KeySize(n, k);
    if k < i <= 255 {
      Shifted(n, k, i - k);
      NotPruned(Query(n, k), k, Key(n, k)[..i], i - k);
    } else if i > BadRow(k) {
      Zeros(n, k, i - BadRow(k));
      NotPruned(Query(n, k), k, Key(n, k)[..i], BadColumn(k) + (i - BadRow(k)));
    } else {
      NotPruned(Query(n, k), k, Key(n, k)[..i], 0);
    }
  }

  /** The key is reported as if it were the query. */
  lemma WideWrong(n: nat, k: nat)
    requires Wide(n, k)
    ensures Reported(Query(n, k), k, Key(n, k)) == Some(0) && !Right(Query(n, k), k, Key(n, k))
  {
    hide CellOf, Key, Pruned, Lev;
    var q, x := Query(n, k), Key(n, k);
    Sizes(n, k);
    KeySize(n, k);
    forall i | 0 < i <= |x| ensures !Pruned(q, k, x[..i]) {
      Survives(n, k, i);
    }
    Zeros(n, k, n - BadColumn(k));
    assert x[..|x|] == x;
    if Lev(x, q) == 0 {
      ZeroDistance(x, q);
      FirstLetters(n, k);
    }
  }

  lemma FirstLetters(n: nat, k: nat)
    requires Wide(n, k)
    ensures Key(n, k)[0] == 'm' && Query(n, k)[0] == 'a'
  {
  }

  lemma ZeroDistance(s: string, t: string)
    requires Lev(s, t) == 0
    ensures s == t
  {
    hide Lev;
    LevReached(s, t);
  }

  function Letters(n: nat): (x: string)
    ensures |x| == n
  {
    seq(n, i => 'a')
  }

  /** With a bound of 255 the first column starts again at zero in row 256. */
  lemma {:induction false} LowEnd(q: string, x: string, t: nat)
    requires q != "" && |x| == 255 + |q| && x[256..] == q[1..] && t < |q|
    ensures CellOf(q, 255, x[..256 + t], t + 1) <= 1 && Number(q, 255, x[..256 + t], t + 1) <= 1
  {
    hide CellOf, Number;
    var p := x[..256 + t];
    CellIs(q, 255, p, t + 1);
    NumberBelow(q, 255, p, t + 1);
    if t == 0 {
      CellIs(q, 255, p, 0);
    } else {
      LowEnd(q, x, t - 1);
      assert p[..|p| - 1] == x[..256 + (t - 1)];
      assert x[255 + t] == x[256..][t - 1] == q[1..][t - 1] == q[t];
    }
  }

  lemma LastBound(q: string)
    requires q != ""
    ensures Reported(q, 255, Letters(256) + q[1..]).Some? && !Right(q, 255, Letters(256) + q[1..])
  {
    hide CellOf, Pruned, Lev, Number;
    var x := Letters(256) + q[1..];
    assert |x| == 255 + |q| && x[256..] == q[1..];
    forall i | 0 < i <= |x| ensures !Pruned(q, 255, x[..i]) {
      if i <= 255 {
        NotPruned(q, 255, x[..i], 0);
      } else {
        LowEnd(q, x, i - 256);
        NotPruned(q, 255, x[..i], i - 255);
      }
    }
    LowEnd(q, x, |q| - 1);
    assert x[..|x|] == x;
    LevBounds(x, q);
  }

  /** Adding to a word costs what is added. */
  lemma {:induction false} LevAdded(p: string, x: string)
    ensures Lev(p + x, p) == |x|
    decreases |x|
  {
    LevBounds(p + x, p);
    if x == "" {
      LevSelf(p);
      assert p + x == p;
    } else {
      LevAdded(p, x[..|x| - 1]);
      assert (p + x)[..|p + x| - 1] == p + x[..|x| - 1];
    }
  }

  /** From a bound of 256 on, no query has only right answers: a distance of 256 is not a byte. */
  lemma LargeBound(q: string, k: nat)
    requires k >= 256
    ensures !Right(q, k, q + Letters(256))
  {
    hide Lev, Reported;
    LevAdded(q, Letters(256));
  }

  /** Bytes are wide enough for the length of the query and the bound if and only if, for every query of that length,
      what is reported of every non-empty key is right. */
  lemma FitsIff(n: nat, k: nat)
    ensures Fits(n, k) <==> forall q: string, x: string :: |q| == n && x != "" ==> Right(q, k, x)
  {
    hide Right, Reported, Key, Letters;
    if Fits(n, k) {
      forall q: string, x: string | |q| == n && x != "" ensures Right(q, k, x) {
        FitsRight(q, k, x);
      }
    } else if k <= 254 {
      WideWrong(n, k);
      KeySize(n, k);
    } else if k == 255 {
      var q := Letters(n);
      LastBound(q);
      assert Letters(256) + q[1..] != "";
    } else {
      LargeBound(Letters(n), k);
      assert Letters(n) + Letters(256) != "";
    }
  }

  // ----- the empty key and the query itself -----

  /** The empty key is judged by the last cell of row 0, which holds the query length modulo 256. */
  lemma EmptyKey(q: string, k: nat)
    ensures Reported(q, k, "") == if |q| % 256 <= k then Some(ToByte(|q|)) else None
  {
  }

  lemma {:induction false} Diagonal(q: string, k: nat, i: nat)
    requires i <= |q|
    ensures CellOf(q, k, q[..i], i) == 0 && (i > 0 ==> Number(q, k, q[..i], i) == 0)
  {
    hide CellOf, Number;
    CellIs(q, k, q[..i], i);
    if i > 0 {
      Diagonal(q, k, i - 1);
      assert q[..i][..i - 1] == q[..i - 1];
      NumberBelow(q, k, q[..i], i);
    }
  }

  /** However wide the numbers, the query itself is reported, at distance zero. */
  lemma QueryReported(q: string, k: nat)
    ensures Reported(q, k, q) == Some(0)
  {
    hide CellOf, Number, Pruned;
    forall i | 0 < i <= |q| ensures !Pruned(q, k, q[..i]) {
      Diagonal(q, k, i);
      NotPruned(q, k, q[..i], i);
    }
    Diagonal(q, k, |q|);
    assert q[..|q|] == q;
  }

  // ----- whole answers -----

  /** The answer is right: exactly the keys within `k` edits, with their values and distances. */
  ghost predicate Exact<V>(hits: Hits<V>, content: map<string, V>, q: string, k: nat) {
    forall x {:trigger x in hits} ::
      && (x in hits <==> x in content && Lev(x, q) <= k)
      && (x in hits ==> hits[x].0 == content[x] && hits[x].1 as int == Lev(x, q))
  }

  /** Where bytes are wide enough, the answer is right, except that an empty key is reported
      for a query longer than 255 whose length wraps around to at most `k`. */
  lemma ExactIff<V>(hits: Hits<V>, content: map<string, V>, q: string, k: nat)
    requires Fits(|q|, k) && Reporting(hits, content, q, k)
    ensures Exact(hits, content, q, k) <==> !("" in content && |q| > 255 && |q| % 256 <= k)
  {
    hide Lev, Reported;
    LevBounds("", q);
    EmptyKey(q, k);
    forall x | x != "" && x in content ensures Right(q, k, x) {
      FitsRight(q, k, x);
    }
    if "" in content && |q| > 255 && |q| % 256 <= k {
      assert "" in hits && hits[""].1 as int != Lev("", q);
    }
  }
}

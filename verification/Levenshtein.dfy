/** Edit distance: the recurrence the search tabulates, and what it means. */
module Levenshtein {

  function Min3(a: nat, b: nat, c: nat): (m: nat)
    ensures m <= a && m <= b && m <= c && (m == a || m == b || m == c)
  {
    if a <= b && a <= c then a else if b <= c then b else c
  }

  ghost function Lev(s: string, t: string): nat
    decreases |s| + |t|
  {
    if s == "" then |t|
    else if t == "" then |s|
    else
      var s', t' := s[..|s| - 1], t[..|t| - 1];
      Min3(Lev(s', t') + (if s[|s| - 1] == t[|t| - 1] then 0 else 1), Lev(s', t) + 1, Lev(s, t') + 1)
  }

  lemma {:induction false} LevBounds(s: string, t: string)
    ensures |s| <= Lev(s, t) + |t| && |t| <= Lev(s, t) + |s|
    ensures Lev(s, t) <= if |s| <= |t| then |t| else |s|
    decreases |s| + |t|
  {
    if s != "" && t != "" {
      var s', t' := s[..|s| - 1], t[..|t| - 1];
      LevBounds(s', t');
      LevBounds(s, t');
      LevBounds(s', t);
    }
  }

  /** A distance is no less than one of the three that it comes from. */
  lemma LevFrom(s: string, t: string)
    requires s != "" && t != ""
    ensures var s', t' := s[..|s| - 1], t[..|t| - 1]; Lev(s, t) >= Lev(s', t') || Lev(s, t) >= Lev(s', t) || Lev(s, t) >= Lev(s, t')
  {
  }

  /** Whatever is appended to `p`, some prefix of `q` was already as close to `p`. */
  lemma {:induction false} NoCloser(p: string, x: string, q: string) returns (c: nat)
    ensures c <= |q| && Lev(p, q[..c]) <= Lev(p + x, q)
    decreases |x| + |q|
  {
    if x == "" {
      c := |q|;
      assert p + x == p && q[..c] == q;
    } else if q == "" {
      c := 0;
    } else {
      var s := p + x;
      var x', q' := x[..|x| - 1], q[..|q| - 1];
      assert s[..|s| - 1] == p + x';
      LevFrom(s, q);
      hide Lev;
      var c1 := NoCloser(p, x', q');
      var c2 := NoCloser(p, x', q);
      var c3 := NoCloser(p, x, q');
      assert q'[..c1] == q[..c1] && q'[..c3] == q[..c3];
      if Lev(p, q[..c1]) <= Lev(s, q) { c := c1; }
      else if Lev(p, q[..c2]) <= Lev(s, q) { c := c2; }
      else { c := c3; }
    }
  }

  // ----- the least number of edits -----

  /** One edit replaces at most one character by at most one character. */
  ghost predicate Edit(s: string, t: string) {
    exists a, x, y, b :: IsEdit(s, t, a, x, y, b)
  }

  ghost predicate IsEdit(s: string, t: string, a: string, x: string, y: string, b: string) {
    |x| <= 1 && |y| <= 1 && s == a + x + b && t == a + y + b
  }

  ghost predicate Edits(s: string, t: string, n: nat)
    decreases n
  {
    if n == 0 then s == t else exists u :: Edits(s, u, n - 1) && Edit(u, t)
  }

  lemma AddEdit(s: string, u: string, t: string, n: nat, a: string, x: string, y: string, b: string)
    requires Edits(s, u, n) && IsEdit(u, t, a, x, y, b)
    ensures Edits(s, t, n + 1)
  {
    assert Edit(u, t);
  }

  lemma {:induction false} EditsUnder(s: string, t: string, n: nat, c: char)
    requires Edits(s, t, n)
    ensures Edits(s + [c], t + [c], n)
    decreases n
  {
    if n > 0 {
      var u :| Edits(s, u, n - 1) && Edit(u, t);
      EditsUnder(s, u, n - 1, c);
      var a, x, y, b :| IsEdit(u, t, a, x, y, b);
      AddEdit(s + [c], u + [c], t + [c], n - 1, a, x, y, b + [c]);
    }
  }

  /** Deleting the last character: the edits of the rest still apply. */
  lemma EditsDrop(s: string, t: string, n: nat, c: char)
    requires Edits(s, t, n)
    ensures Edits(s + [c], t, n + 1)
  {
    EditsUnder(s, t, n, c);
    AddEdit(s + [c], t + [c], t, n, t, [c], "", "");
  }

  lemma EditsAdd(s: string, t: string, n: nat, c: char)
    requires Edits(s, t, n)
    ensures Edits(s, t + [c], n + 1)
  {
    AddEdit(s, t, t + [c], n, t, "", [c], "");
  }

  lemma EditsSwap(s: string, t: string, n: nat, c: char, d: char)
    requires Edits(s, t, n)
    ensures Edits(s + [c], t + [d], n + 1)
  {
    EditsUnder(s, t, n, c);
    AddEdit(s + [c], t + [c], t + [d], n, t, [c], [d], "");
  }

  /** The distance can be achieved, */
  lemma {:induction false} LevReached(s: string, t: string)
    ensures Edits(s, t, Lev(s, t))
    decreases |s| + |t|
  {
    if s == "" && t == "" {
    } else if s == "" {
      var t' := t[..|t| - 1];
      LevReached(s, t');
      assert t == t' + [t[|t| - 1]];
      EditsAdd(s, t', Lev(s, t'), t[|t| - 1]);
    } else if t == "" {
      var s' := s[..|s| - 1];
      LevReached(s', t);
      assert s == s' + [s[|s| - 1]];
      EditsDrop(s', t, Lev(s', t), s[|s| - 1]);
    } else {
      var s', t', c, d := s[..|s| - 1], t[..|t| - 1], s[|s| - 1], t[|t| - 1];
      assert s == s' + [c] && t == t' + [d];
      if Lev(s, t) == Lev(s', t) + 1 {
        LevReached(s', t);
        EditsDrop(s', t, Lev(s', t), c);
      } else if Lev(s, t) == Lev(s, t') + 1 {
        LevReached(s, t');
        EditsAdd(s, t', Lev(s, t'), d);
      } else {
        LevReached(s', t');
        if c == d { EditsUnder(s', t', Lev(s', t'), c); } else { EditsSwap(s', t', Lev(s', t'), c, d); }
      }
    }
  }

  /** One edit at the end of a word changes the distance by one at most. */
  lemma {:induction false} EditEnd(a: string, x: string, y: string, t: string)
    requires |x| <= 1 && |y| <= 1
    ensures Lev(a + x, t) <= Lev(a + y, t) + 1
    decreases |t|
  {
    if t != "" {
      var t' := t[..|t| - 1];
      EditEnd(a, x, y, t');
      EditEnd(a, "", y, t');
      assert a + "" == a;
      if |x| == 1 { assert (a + x)[..|a + x| - 1] == a; }
      if |y| == 1 { assert (a + y)[..|a + y| - 1] == a; }
      OneMore(a, t);
      OneMore(a + x, t);
      if x == "" { assert a + x == a; } else { LastOff(a, x, t); }
      if y == "" { assert a + y == a; }
    }
  }

  lemma OneMore(a: string, t: string)
    requires t != ""
    ensures Lev(a, t) <= Lev(a, t[..|t| - 1]) + 1
  {
  }

  lemma LastOff(a: string, x: string, t: string)
    requires |x| == 1
    ensures Lev(a + x, t) <= Lev(a, t) + 1
    ensures t != "" ==> Lev(a + x, t) <= Lev(a, t[..|t| - 1]) + 1
  {
    assert (a + x)[..|a + x| - 1] == a;
  }

  lemma {:induction false} EditClose(a: string, x: string, y: string, b: string, t: string)
    requires |x| <= 1 && |y| <= 1
    ensures Lev(a + x + b, t) <= Lev(a + y + b, t) + 1
    decreases |b| + |t|
  {
    if b == "" {
      assert a + x + b == a + x && a + y + b == a + y;
      EditEnd(a, x, y, t);
    } else if t != "" {
      var b', t' := b[..|b| - 1], t[..|t| - 1];
      assert (a + x + b)[..|a + x + b| - 1] == a + x + b';
      assert (a + y + b)[..|a + y + b| - 1] == a + y + b';
      EditClose(a, x, y, b', t');
      EditClose(a, x, y, b', t);
      EditClose(a, x, y, b, t');
    }
  }

  /** and no fewer edits will do. */
  lemma {:induction false} LevLeast(s: string, t: string, n: nat)
    requires Edits(s, t, n)
    ensures Lev(s, t) <= n
    decreases n
  {
    if n == 0 {
      LevSelf(s);
    } else {
      var u :| Edits(s, u, n - 1) && Edit(u, t);
      LevLeast(s, u, n - 1);
      var a, x, y, b :| IsEdit(u, t, a, x, y, b);
      LevSymmetric(s, t);
      LevSymmetric(s, u);
      EditClose(a, y, x, b, s);
    }
  }

  lemma {:induction false} LevSelf(s: string)
    ensures Lev(s, s) == 0
    decreases |s|
  {
    if s != "" { LevSelf(s[..|s| - 1]); }
  }

  lemma {:induction false} LevSymmetric(s: string, t: string)
    ensures Lev(s, t) == Lev(t, s)
    decreases |s| + |t|
  {
    if s != "" && t != "" {
      LevSymmetric(s[..|s| - 1], t[..|t| - 1]);
      LevSymmetric(s, t[..|t| - 1]);
      LevSymmetric(s[..|s| - 1], t);
    }
  }
}

/** One direction of a session under messages that overtake each other: they are numbered when they are
    sealed, and the receiving end opens only the next number. */
module Lanes {

  /** `sealed` is the next number to be given, `next` the one that opens, `arrived` the numbers in the order of their arrival. */
  datatype Lane = Lane(sealed: nat, next: nat, arrived: seq<nat>)

  const IDLE := Lane(0, 0, [])

  function Seal(l: Lane): Lane { l.(sealed := l.sealed + 1) }

  predicate Opens(l: Lane, n: nat) { n == l.next }

  function Arrive(l: Lane, n: nat): Lane {
    l.(arrived := l.arrived + [n], next := if Opens(l, n) then l.next + 1 else l.next)
  }

  /** Number `j` has arrived before the one sealed after it. */
  ghost predicate Follows(a: seq<nat>, j: nat) {
    exists p, q :: 0 <= p < q < |a| && a[p] == j && a[q] == j + 1
  }

  /** Up to number `n`, everything has arrived in the order in which it was sealed. */
  ghost predicate InOrder(a: seq<nat>, n: nat) {
    n in a && forall j :: 0 <= j < n ==> Follows(a, j)
  }

  ghost predicate Once(a: seq<nat>) {
    forall p, q :: 0 <= p < q < |a| ==> a[p] != a[q]
  }

  /** What has arrived opened if and only if it was in order. */
  ghost predicate Sound(l: Lane) {
    && Once(l.arrived) && l.next <= l.sealed
    && (forall n :: n in l.arrived ==> n < l.sealed)
    && (forall n: nat :: n < l.next ==> InOrder(l.arrived, n))
    && (forall n :: n in l.arrived && n >= l.next ==> !InOrder(l.arrived, n))
  }

  lemma IdleSound()
    ensures Sound(IDLE)
  {
  }

  lemma SealSound(l: Lane)
    requires Sound(l)
    ensures Sound(Seal(l))
  {
    hide InOrder;
  }

  lemma FollowsMore(a: seq<nat>, m: nat, j: nat)
    requires m !in a
    ensures Follows(a + [m], j) <==> Follows(a, j) || (j in a && j + 1 == m)
  {
    var b := a + [m];
    if Follows(b, j) {
      var p, q :| 0 <= p < q < |b| && b[p] == j && b[q] == j + 1;
      if q < |a| { assert a[p] == j && a[q] == j + 1; } else { assert a[p] == j; }
    }
    if Follows(a, j) {
      var p, q :| 0 <= p < q < |a| && a[p] == j && a[q] == j + 1;
      assert b[p] == j && b[q] == j + 1;
    }
    if j in a && j + 1 == m {
      var p :| 0 <= p < |a| && a[p] == j;
      assert b[p] == j && b[|a|] == j + 1;
    }
  }

  lemma NeverFollows(a: seq<nat>, m: nat)
    requires m !in a
    ensures !Follows(a, m) && (m > 0 ==> !Follows(a, m - 1))
  {
  }

  /** A number that comes later changes nothing for those that came before it. */
  lemma InOrderMore(a: seq<nat>, m: nat, n: nat)
    requires m !in a && n in a
    ensures InOrder(a + [m], n) <==> InOrder(a, n)
  {
    hide Follows;
    var b := a + [m];
    NeverFollows(a, m);
    FollowsMore(a, m, m);
    forall j | 0 <= j < n ensures Follows(b, j) <==> Follows(a, j) || (j in a && j + 1 == m) { FollowsMore(a, m, j); }
    if InOrder(b, n) {
      assert !Follows(b, m) && n <= m;
      assert forall j :: 0 <= j < n ==> Follows(b, j) && Follows(a, j);
    }
  }

  lemma InOrderNext(a: seq<nat>, m: nat)
    requires m !in a
    ensures InOrder(a + [m], m) <==> m == 0 || InOrder(a, m - 1)
  {
    hide Follows;
    var b := a + [m];
    forall j | 0 <= j < m ensures Follows(b, j) <==> Follows(a, j) || (j in a && j + 1 == m) { FollowsMore(a, m, j); }
    NeverFollows(a, m);
    if InOrder(b, m) && m > 0 {
      assert Follows(b, m - 1);
      assert forall j :: 0 <= j < m - 1 ==> Follows(b, j) && Follows(a, j);
    }
    assert b[|a|] == m;
  }

  /** A message that arrives opens if and only if it and all before it have arrived in the order of their sealing. */
  lemma ArriveSound(l: Lane, n: nat)
    requires Sound(l) && n < l.sealed && n !in l.arrived
    ensures Sound(Arrive(l, n)) && l.next <= n
    ensures Opens(l, n) <==> InOrder(Arrive(l, n).arrived, n)
  {
    hide InOrder;
    var a, b := l.arrived, Arrive(l, n).arrived;
    forall k: nat ensures InOrder(a, k) ==> k in a { InOrderIn(a, k); }
    forall k: nat | k in a ensures InOrder(b, k) <==> InOrder(a, k) { InOrderMore(a, n, k); }
    InOrderNext(a, n);
  }

  lemma InOrderIn(a: seq<nat>, k: nat)
    ensures InOrder(a, k) ==> k in a
  {
  }

  /** Once a message has not opened, no later one of the lane ever does. */
  lemma Stuck(l: Lane, n: nat, k: nat)
    requires Sound(l) && n in l.arrived && n >= l.next && k > n
    ensures !InOrder(l.arrived, k) && !Opens(l, k)
  {
    hide InOrder;
    assert l.next <= n;
    if InOrder(l.arrived, k) {
      OrderDown(l.arrived, k, n);
    }
  }

  lemma OrderDown(a: seq<nat>, k: nat, n: nat)
    requires InOrder(a, k) && n <= k
    ensures InOrder(a, n)
  {
    if n < k { assert Follows(a, n); }
  }
}

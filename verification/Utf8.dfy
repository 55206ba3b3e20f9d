/** The string helpers of the graph module: UTF-16 code units to UTF-8 bytes in a heap and back. */
module Utf8 {

  type Unit = bv16
  type Octet = bv8

  // ----- what the encoder makes of a string -----

  predicate Surrogate(u: Unit) { 0xD800 <= u <= 0xDFFF }

  /** Any surrogate unit is joined with whatever follows; past the end of the string that is no bits at all. */
  function Pair(u: Unit, v: Unit): (p: bv32)
    ensures 0x10000 <= p < 0x110000
  {
    (0x10000 + ((0x3FF & u as bv32) << 10)) | (0x3FF & v as bv32)
  }

  function First(s: seq<Unit>): (p: bv32)
    requires s != []
    ensures p < 0x110000
  {
    if Surrogate(s[0]) then Pair(s[0], if |s| > 1 then s[1] else 0) else s[0] as bv32
  }

  function After(s: seq<Unit>): seq<Unit>
    requires s != []
  {
    if Surrogate(s[0]) && |s| > 1 then s[2..] else s[1..]
  }

  function Points(s: seq<Unit>): (ps: seq<bv32>)
    ensures forall i :: 0 <= i < |ps| ==> ps[i] < 0x110000
  {
    if s == [] then [] else [First(s)] + Points(After(s))
  }

  /** The octets of one code point, section 3 of RFC 3629. */
  function Octets(p: bv32): (b: seq<Octet>)
    requires p < 0x110000
    ensures 1 <= |b| <= 4
  {
    if p <= 0x7F then [p as bv8]
    else if p <= 0x7FF then [(0xC0 | (p >> 6)) as bv8, (0x80 | (p & 0x3F)) as bv8]
    else if p <= 0xFFFF then [(0xE0 | (p >> 12)) as bv8, (0x80 | ((p >> 6) & 0x3F)) as bv8, (0x80 | (p & 0x3F)) as bv8]
    else [(0xF0 | (p >> 18)) as bv8, (0x80 | ((p >> 12) & 0x3F)) as bv8, (0x80 | ((p >> 6) & 0x3F)) as bv8, (0x80 | (p & 0x3F)) as bv8]
  }

  ghost predicate InRange(ps: seq<bv32>) {
    forall i :: 0 <= i < |ps| ==> ps[i] < 0x110000
  }

  function Encode(ps: seq<bv32>): seq<Octet>
    requires InRange(ps)
  {
    if ps == [] then [] else Octets(ps[0]) + Encode(ps[1..])
  }

  lemma {:induction false} EncodeMore(ps: seq<bv32>, qs: seq<bv32>)
    requires InRange(ps) && InRange(qs)
    ensures InRange(ps + qs) && Encode(ps + qs) == Encode(ps) + Encode(qs)
  {
    hide Octets;
    if ps == [] {
      assert ps + qs == qs;
    } else {
      assert (ps + qs)[1..] == ps[1..] + qs;
      EncodeMore(ps[1..], qs);
    }
  }

  lemma EncodeOne(p: bv32)
    requires p < 0x110000
    ensures Encode([p]) == Octets(p)
  {
    hide Octets;
    assert [p][1..] == [];
  }

  // ----- length -----

  /** The rest of the string from `t` on; a lone surrogate at the end lets the index run past the end. */
  function Rest(s: seq<Unit>, t: nat): seq<Unit> {
    if t <= |s| then s[t..] else []
  }

  function StepOf(s: seq<Unit>, t: nat): nat
    requires t < |s|
  {
    if Surrogate(s[t]) then 2 else 1
  }

  lemma RestStep(s: seq<Unit>, t: nat)
    requires t < |s|
    ensures Rest(s, t) != [] && After(Rest(s, t)) == Rest(s, t + StepOf(s, t))
    ensures First(Rest(s, t)) == if Surrogate(s[t]) then Pair(s[t], if t + 1 < |s| then s[t + 1] else 0) else s[t] as bv32
    ensures Points(Rest(s, t)) == [First(Rest(s, t))] + Points(Rest(s, t + StepOf(s, t)))
  {
    hide Pair;
  }

  /** How many octets a code unit adds. */
  lemma Width(s: seq<Unit>)
    requires s != []
    ensures |Octets(First(s))| == if s[0] <= 0x7F then 1 else if s[0] <= 0x7FF then 2 else if Surrogate(s[0]) then 4 else 3
  {
  }

  /** `lengthBytesUTF8`. */
  method LengthBytes(e: seq<Unit>) returns (r: nat)
    ensures r == |Encode(Points(e))|
  {
    hide Octets, Points, First, Encode;
    r := 0;
    var t := 0;
    assert Rest(e, 0) == e;
    while t < |e|
      invariant r + |Encode(Points(Rest(e, t)))| == |Encode(Points(e))|
    {
      var n := e[t];
      RestStep(e, t);
      Width(Rest(e, t));
      EncodeOne(First(Rest(e, t)));
      EncodeMore([First(Rest(e, t))], Points(Rest(e, t + StepOf(e, t))));
      if n <= 127 {
        r := r + 1;
      } else if n <= 2047 {
        r := r + 2;
      } else if n >= 55296 && n <= 57343 {
        r := r + 4;
        t := t + 1;
      } else {
        r := r + 3;
      }
      t := t + 1;
    }
    NoPoints();
    assert Rest(e, t) == [];
  }

  lemma NoPoints()
    ensures Points([]) == [] && Encode([]) == []
  {
  }

  // ----- writing -----

  /** `b` lies in the heap from `start` on; everything else is as it was. */
  ghost predicate Written(h0: seq<Octet>, h: seq<Octet>, start: nat, b: seq<Octet>) {
    && |h| == |h0| && start + |b| <= |h|
    && forall x :: 0 <= x < |h| ==> h[x] == if start <= x < start + |b| then b[x - start] else h0[x]
  }

  lemma WriteOne(h0: seq<Octet>, h: seq<Octet>, start: nat, b: seq<Octet>, v: Octet)
    requires Written(h0, h, start, b) && start + |b| < |h|
    ensures Written(h0, h[start + |b| := v], start, b + [v])
  {
  }

  /** One octet. */
  method Put(r: array<Octet>, t: nat, v: Octet, ghost h0: seq<Octet>, ghost start: nat, ghost b: seq<Octet>)
    requires Written(h0, r[..], start, b) && t == start + |b| < r.Length
    modifies r
    ensures Written(h0, r[..], start, b + [v])
  {
    hide Written;
    ghost var h := r[..];
    WriteOne(h0, h, start, b, v);
    r[t] := v;
    assert r[..] == h[t := v];
  }

  /** One code point, if it fits before position `a`. */
  method PutPoint(r: array<Octet>, t: nat, a: nat, s: bv32, ghost h0: seq<Octet>, ghost start: nat, ghost b: seq<Octet>)
    returns (t': nat, fits: bool)
    requires s < 0x110000 && Written(h0, r[..], start, b) && t == start + |b| <= a < r.Length
    modifies r
    ensures fits <==> t + |Octets(s)| <= a
    ensures !fits ==> r[..] == old(r[..]) && t' == t
    ensures fits ==> Written(h0, r[..], start, b + Octets(s)) && t' == t + |Octets(s)|
  {
    hide Written, Octets;
    t', fits := t, false;
    OctetsAre(s);
    if s <= 127 {
      if t >= a { return; }
      Put(r, t, s as bv8, h0, start, b);
      t' := t + 1;
    } else if s <= 2047 {
      if t + 1 >= a { return; }
      Put(r, t, (192 | (s >> 6)) as bv8, h0, start, b);
      Put(r, t + 1, (128 | (63 & s)) as bv8, h0, start, b + [(192 | (s >> 6)) as bv8]);
      Append2(b, (192 | (s >> 6)) as bv8, (128 | (63 & s)) as bv8);
      t' := t + 2;
    } else if s <= 65535 {
      if t + 2 >= a { return; }
      ghost var x, y, z := (224 | (s >> 12)) as bv8, (128 | ((s >> 6) & 63)) as bv8, (128 | (63 & s)) as bv8;
      Append3(b, x, y, z);
      Put(r, t, (224 | (s >> 12)) as bv8, h0, start, b);
      Put(r, t + 1, (128 | ((s >> 6) & 63)) as bv8, h0, start, b + [x]);
      Put(r, t + 2, (128 | (63 & s)) as bv8, h0, start, b + [x, y]);
      t' := t + 3;
    } else {
      if t + 3 >= a { return; }
      ghost var w, x, y, z := (240 | (s >> 18)) as bv8, (128 | ((s >> 12) & 63)) as bv8, (128 | ((s >> 6) & 63)) as bv8,
                               (128 | (63 & s)) as bv8;
      Append4(b, w, x, y, z);
      Put(r, t, (240 | (s >> 18)) as bv8, h0, start, b);
      Put(r, t + 1, (128 | ((s >> 12) & 63)) as bv8, h0, start, b + [w]);
      Put(r, t + 2, (128 | ((s >> 6) & 63)) as bv8, h0, start, b + [w, x]);
      Put(r, t + 3, (128 | (63 & s)) as bv8, h0, start, b + [w, x, y]);
      t' := t + 4;
    }
    fits := true;
  }

  lemma OctetsAre(s: bv32)
    requires s < 0x110000
    ensures s <= 127 ==> Octets(s) == [s as bv8]
    ensures 127 < s <= 2047 ==> Octets(s) == [(192 | (s >> 6)) as bv8, (128 | (63 & s)) as bv8]
    ensures 2047 < s <= 65535 ==> Octets(s) == [(224 | (s >> 12)) as bv8, (128 | ((s >> 6) & 63)) as bv8, (128 | (63 & s)) as bv8]
    ensures 65535 < s ==>
      Octets(s) == [(240 | (s >> 18)) as bv8, (128 | ((s >> 12) & 63)) as bv8, (128 | ((s >> 6) & 63)) as bv8, (128 | (63 & s)) as bv8]
  {
  }

  lemma Append2(b: seq<Octet>, x: Octet, y: Octet)
    ensures b + [x] + [y] == b + [x, y]
  {
  }

  lemma Append3(b: seq<Octet>, x: Octet, y: Octet, z: Octet)
    ensures b + [x] + [y] == b + [x, y] && b + [x, y] + [z] == b + [x, y, z]
  {
  }

  lemma Append4(b: seq<Octet>, w: Octet, x: Octet, y: Octet, z: Octet)
    ensures b + [w] + [x] == b + [w, x] && b + [w, x] + [y] == b + [w, x, y] && b + [w, x, y] + [z] == b + [w, x, y, z]
  {
  }

  /** What fits: the longest run of code points whose octets leave room for the final zero. */
  ghost predicate Longest(ps: seq<bv32>, m: nat, room: nat)
    requires InRange(ps)
  {
    m <= |ps| && |Encode(ps[..m])| <= room && (m < |ps| ==> |Encode(ps[..m + 1])| > room)
  }

  lemma EncodeNext(ps: seq<bv32>, m: nat)
    requires InRange(ps) && m < |ps|
    ensures Encode(ps[..m + 1]) == Encode(ps[..m]) + Octets(ps[m])
  {
    hide Octets;
    assert ps[..m + 1] == ps[..m] + [ps[m]];
    EncodeMore(ps[..m], [ps[m]]);
    EncodeOne(ps[m]);
  }

  /** Where the encoder stands: `m` code points are written, the rest of the string holds the others. */
  ghost predicate Encoding(e: seq<Unit>, i: nat, m: nat) {
    m <= |Points(e)| && Points(e)[m..] == Points(Rest(e, i))
  }

  lemma EncodingStep(e: seq<Unit>, i: nat, m: nat)
    requires Encoding(e, i, m) && i < |e|
    ensures m < |Points(e)| && Points(e)[m] == First(Rest(e, i)) && Encoding(e, i + StepOf(e, i), m + 1)
  {
    hide Points, First;
    RestStep(e, i);
    assert Points(e)[m + 1..] == Points(e)[m..][1..];
  }

  lemma EncodingEnd(e: seq<Unit>, i: nat, m: nat)
    requires Encoding(e, i, m) && i >= |e|
    ensures m == |Points(e)|
  {
    NoPoints();
    assert Rest(e, i) == [];
  }

  /** The bits of two units. */
  method Join(u: Unit, v: Unit) returns (s: bv32)
    ensures s == Pair(u, v)
  {
    s := u as bv32;
    s := (65536 + ((1023 & s) << 10)) | (1023 & v as bv32);
  }

  /** The next code point, and the position of the last unit it took. */
  method NextPoint(e: seq<Unit>, i: nat) returns (s: bv32, i': nat)
    requires i < |e|
    ensures s == First(Rest(e, i)) && i' + 1 == i + StepOf(e, i)
  {
    hide First, Rest, Points, After, Pair, Surrogate;
    RestStep(e, i);
    i' := i;
    if Surrogate(e[i]) {
      i' := i + 1;
      s := Join(e[i], if i' < |e| then e[i'] else 0);
    } else {
      s := e[i] as bv32;
    }
  }

  /** `stringToUTF8Array`: at most `n` octets from `start` on, the last one zero. */
  method StringToUTF8Array(e: seq<Unit>, r: array<Octet>, start: nat, n: int) returns (len: nat, ghost m: nat)
    requires n > 0 ==> start + n <= r.Length
    modifies r
    ensures n <= 0 ==> len == 0 && r[..] == old(r[..])
    ensures n > 0 ==> Longest(Points(e), m, n - 1) && len == |Encode(Points(e)[..m])|
    ensures n > 0 ==> Written(old(r[..]), r[..], start, Encode(Points(e)[..m]) + [0])
  {
    hide Octets, Points, First, After, Encode, Written, Encoding, Pair, Rest, StepOf, Longest, Surrogate;
    m := 0;
    if !(n > 0) { return 0, 0; }
    ghost var h0, ps := r[..], Points(e);
    var o, t, a := start, start, start + n - 1;
    var i := 0;
    StartEncoding(e, h0, start);
    while i < |e|
      invariant InRange(ps) && Encoding(e, i, m) && m <= |ps|
      invariant Written(h0, r[..], start, Encode(ps[..m])) && t == start + |Encode(ps[..m])| <= a
    {
      EncodingStep(e, i, m);
      RestStep(e, i);
      EncodeNext(ps, m);
      var s, i' := NextPoint(e, i);
      var fits;
      t, fits := PutPoint(r, t, a, s, h0, start, Encode(ps[..m]));
      if !fits {
        IsLongest(ps, m, n - 1);
        PutEnd(r, t, h0, start, Encode(ps[..m]));
        return t - o, m;
      }
      m := m + 1;
      i := i' + 1;
    }
    EncodingEnd(e, i, m);
    IsLongest(ps, m, n - 1);
    PutEnd(r, t, h0, start, Encode(ps[..m]));
    len := t - o;
  }

  lemma StartEncoding(e: seq<Unit>, h: seq<Octet>, start: nat)
    requires start <= |h|
    ensures InRange(Points(e)) && Encoding(e, 0, 0) && Encode(Points(e)[..0]) == [] && Written(h, h, start, [])
  {
    assert Rest(e, 0) == e && Points(e)[0..] == Points(e);
  }

  lemma IsLongest(ps: seq<bv32>, m: nat, room: nat)
    requires InRange(ps) && m <= |ps| && |Encode(ps[..m])| <= room
    requires m < |ps| ==> |Encode(ps[..m + 1])| > room
    ensures Longest(ps, m, room)
  {
  }

  /** The final zero. */
  method PutEnd(r: array<Octet>, t: nat, ghost h0: seq<Octet>, ghost start: nat, ghost b: seq<Octet>)
    requires Written(h0, r[..], start, b) && t == start + |b| < r.Length
    modifies r
    ensures Written(h0, r[..], start, b + [0])
  {
    Put(r, t, 0, h0, start, b);
  }

  // ----- reading -----

  /** `String.fromCharCode` for a code point, one or two units: sections 2.1 and 2.2 of RFC 2781. */
  function UnitsOf(p: bv32): (u: seq<Unit>)
    requires p < 0x200000
    ensures 1 <= |u| <= 2
  {
    if p < 0x10000 then [p as bv16]
    else [(0xD800 | ((p - 0x10000) >> 10)) as bv16, (0xDC00 | (0x3FF & (p - 0x10000))) as bv16]
  }

  function Units(ps: seq<bv32>): seq<Unit>
    requires InRange(ps)
  {
    if ps == [] then [] else UnitsOf(ps[0]) + Units(ps[1..])
  }

  /** Reading past the end of the array gives `undefined`, which has no bits. */
  function Get(h: seq<Octet>, x: nat): (b: bv32)
    ensures b < 256
  {
    if x < |h| then h[x] as bv32 else 0
  }

  function Two(i: bv32, s: bv32): (p: bv32)
    ensures s < 64 ==> p < 0x800
  {
    ((31 & i) << 6) | s
  }

  function Three(i: bv32, s: bv32, u: bv32): (p: bv32)
    ensures s < 64 && u < 64 ==> p < 0x10000
  {
    ((15 & i) << 12) | (s << 6) | u
  }

  function Four(i: bv32, s: bv32, u: bv32, z: bv32): (p: bv32)
    ensures s < 64 && u < 64 && z < 64 ==> p < 0x200000
  {
    ((7 & i) << 18) | (s << 12) | (u << 6) | z
  }

  function Low6(x: bv32): (s: bv32)
    ensures s < 64
  {
    63 & x
  }

  /** How many octets the first one announces. */
  function Announced(i: bv32): (n: nat)
    requires i < 256
    ensures 1 <= n <= 4
  {
    if 128 & i == 0 then 1 else if 224 & i == 192 then 2 else if 240 & i == 224 then 3 else 4
  }

  /** The code point that the manual loop makes of an octet and the three after it. */
  function PointOf(i: bv32, x: bv32, y: bv32, z: bv32): (p: bv32)
    requires i < 256
    ensures p < 0x200000
  {
    var n := Announced(i);
    if n == 1 then i
    else if n == 2 then Two(i, Low6(x))
    else if n == 3 then Three(i, Low6(x), Low6(y))
    else Four(i, Low6(x), Low6(y), Low6(z))
  }

  /** One step of the manual loop: what it appends, and how many octets it takes. */
  function Bits(i: bv32, x: bv32, y: bv32, z: bv32): (d: (seq<Unit>, nat))
    requires i < 256
    ensures d.1 >= 1
  {
    (UnitsOf(PointOf(i, x, y, z)), Announced(i))
  }

  function Decoded(h: seq<Octet>, r: nat): (d: (seq<Unit>, nat))
    ensures d.1 >= 1
  {
    Bits(Get(h, r), Get(h, r + 1), Get(h, r + 2), Get(h, r + 3))
  }

  function Manual(h: seq<Octet>, r: nat, o: nat): seq<Unit>
    decreases if o > r then o - r else 0
  {
    if r >= o then [] else Decoded(h, r).0 + Manual(h, r + Decoded(h, r).1, o)
  }

  /** Where reading stops: at a zero, at the limit, or at the end of the array. */
  function End(h: seq<Octet>, r: nat, limit: nat): (o: nat)
    ensures o >= r
    decreases |h| - r
  {
    if r < |h| && h[r] != 0 && r < limit then End(h, r + 1, limit) else r
  }

  /** The manual loop of `UTF8ArrayToString`. */
  method UTF8ArrayToString(e: array<Octet>, start: nat, t: nat) returns (a: seq<Unit>)
    ensures a == Manual(e[..], start, End(e[..], start, start + t))
  {
    hide Decoded, Get;
    var n, o := start + t, start;
    while o < e.Length && e[o] != 0 && !(o >= n)
      invariant start <= o && End(e[..], o, n) == End(e[..], start, n)
      decreases e.Length - o
    {
      o := o + 1;
    }
    a := [];
    var r := start;
    while r < o
      invariant a + Manual(e[..], r, o) == Manual(e[..], start, o)
      decreases o - r
    {
      var more, taken := DecodeNext(e, r);
      a := a + more;
      r := r + taken;
    }
  }

  method DecodeNext(e: array<Octet>, r: nat) returns (more: seq<Unit>, taken: nat)
    ensures (more, taken) == Decoded(e[..], r)
  {
    hide Bits;
    var i, x, y, z := ReadOctet(e, r), ReadOctet(e, r + 1), ReadOctet(e, r + 2), ReadOctet(e, r + 3);
    more, taken := DecodeBits(i, x, y, z);
  }

  function ReadOctet(e: array<Octet>, x: nat): (b: bv32)
    reads e
    ensures b == Get(e[..], x)
  {
    if x < e.Length then e[x] as bv32 else 0
  }

  method DecodeBits(b: bv32, x: bv32, y: bv32, z: bv32) returns (more: seq<Unit>, taken: nat)
    requires b < 256
    ensures (more, taken) == Bits(b, x, y, z)
  {
    hide Two, Three, Four, Low6, UnitsOf;
    var i := b;
    if 128 & i != 0 {
      var s := Low6(x);
      if 192 != 224 & i {
        var u := Low6(y);
        if 224 == 240 & i {
          taken := 3;
          i := Three(i, s, u);
        } else {
          taken := 4;
          i := Four(i, s, u, Low6(z));
        }
        more := UnitsOf(i);
      } else {
        more, taken := UnitsOf(Two(i, s)), 2;
      }
    } else {
      more, taken := UnitsOf(i), 1;
    }
  }

  // ----- the round trip -----

  /** Decoding undoes encoding, code point by code point. */
  lemma Decode1(p: bv32, x: bv32, y: bv32, z: bv32)
    requires p <= 0x7F
    ensures Bits(Octets(p)[0] as bv32, x, y, z) == (UnitsOf(p), 1)
  {
  }

  lemma Decode2(p: bv32, y: bv32, z: bv32)
    requires 0x7F < p <= 0x7FF
    ensures Bits(Octets(p)[0] as bv32, Octets(p)[1] as bv32, y, z) == (UnitsOf(p), 2)
  {
  }

  lemma Decode3(p: bv32, z: bv32)
    requires 0x7FF < p <= 0xFFFF
    ensures Bits(Octets(p)[0] as bv32, Octets(p)[1] as bv32, Octets(p)[2] as bv32, z) == (UnitsOf(p), 3)
  {
  }

  lemma Decode4(p: bv32)
    requires 0xFFFF < p < 0x110000
    ensures Bits(Octets(p)[0] as bv32, Octets(p)[1] as bv32, Octets(p)[2] as bv32, Octets(p)[3] as bv32) == (UnitsOf(p), 4)
  {
  }

  lemma NonZero(p: bv32)
    requires p < 0x110000
    ensures p != 0 ==> forall j :: 0 <= j < |Octets(p)| ==> Octets(p)[j] != 0
    ensures p == 0 ==> Octets(p) == [0]
  {
  }

  lemma PairUnits(u: Unit, v: Unit)
    ensures UnitsOf(Pair(u, v)) == [0xD800 | (0x3FF & u), 0xDC00 | (0x3FF & v)]
  {
  }

  predicate High(u: Unit) { 0xD800 <= u <= 0xDBFF }

  predicate Low(u: Unit) { 0xDC00 <= u <= 0xDFFF }

  lemma EitherHalf(u: Unit)
    ensures Surrogate(u) <==> High(u) || Low(u)
    ensures !(High(u) && Low(u))
  {
  }

  lemma HighLow(u: Unit, v: Unit)
    requires Surrogate(u)
    ensures 0xD800 | (0x3FF & u) == u <==> High(u)
    ensures 0xDC00 | (0x3FF & v) == v <==> Low(v)
  {
  }

  lemma SamePair(u: Unit, v: Unit)
    requires Surrogate(u)
    ensures |UnitsOf(Pair(u, v))| == 2 && (UnitsOf(Pair(u, v)) == [u, v] <==> High(u) && Low(v))
  {
    hide UnitsOf, Pair, Surrogate, High, Low;
    PairUnits(u, v);
    HighLow(u, v);
  }

  /** The octets of `p` at position `r`. */
  ghost predicate Lies(h: seq<Octet>, r: nat, b: seq<Octet>) {
    r + |b| <= |h| && h[r..r + |b|] == b
  }

  lemma OctetCount(p: bv32)
    requires p < 0x110000
    ensures |Octets(p)| == if p <= 0x7F then 1 else if p <= 0x7FF then 2 else if p <= 0xFFFF then 3 else 4
  {
  }

  lemma GetAt(h: seq<Octet>, r: nat, b: seq<Octet>)
    requires Lies(h, r, b)
    ensures forall j :: 0 <= j < |b| ==> Get(h, r + j) == b[j] as bv32
  {
    forall j | 0 <= j < |b| ensures Get(h, r + j) == b[j] as bv32 {
      assert h[r..r + |b|][j] == h[r + j];
    }
  }

  lemma DecodePoint(h: seq<Octet>, r: nat, p: bv32)
    requires p < 0x110000 && Lies(h, r, Octets(p))
    ensures Decoded(h, r) == (UnitsOf(p), |Octets(p)|)
  {
    hide Bits, UnitsOf, Octets, Get, Lies;
    var b := Octets(p);
    OctetCount(p);
    GetAt(h, r, b);
    if p <= 0x7F { Decode1(p, Get(h, r + 1), Get(h, r + 2), Get(h, r + 3)); }
    else if p <= 0x7FF { Decode2(p, Get(h, r + 2), Get(h, r + 3)); }
    else if p <= 0xFFFF { Decode3(p, Get(h, r + 3)); }
    else { Decode4(p); }
  }

  lemma LiesParts(h: seq<Octet>, r: nat, b: seq<Octet>, c: seq<Octet>)
    requires Lies(h, r, b + c)
    ensures Lies(h, r, b) && Lies(h, r + |b|, c)
  {
    assert b == (b + c)[..|b|] && c == (b + c)[|b|..];
  }

  lemma {:induction false} DecodeEncoded(h: seq<Octet>, r: nat, ps: seq<bv32>)
    requires InRange(ps) && Lies(h, r, Encode(ps))
    ensures Manual(h, r, r + |Encode(ps)|) == Units(ps)
    decreases |ps|
  {
    hide Octets, Decoded, UnitsOf;
    if ps != [] {
      LiesParts(h, r, Octets(ps[0]), Encode(ps[1..]));
      DecodePoint(h, r, ps[0]);
      DecodeEncoded(h, r + |Octets(ps[0])|, ps[1..]);
    }
  }

  /** The code points before the first zero. */
  function Cut(ps: seq<bv32>): (c: seq<bv32>)
    requires InRange(ps)
    ensures InRange(c)
  {
    if ps == [] || ps[0] == 0 then [] else [ps[0]] + Cut(ps[1..])
  }

  lemma EndPast(h: seq<Octet>, r: nat, b: seq<Octet>, limit: nat)
    requires Lies(h, r, b) && r + |b| <= limit && forall j :: 0 <= j < |b| ==> b[j] != 0
    ensures End(h, r, limit) == End(h, r + |b|, limit)
    decreases |b|
  {
    if b != [] {
      LiesParts(h, r, b[..1], b[1..]) by { assert b == b[..1] + b[1..]; }
      assert h[r] == b[0];
      EndPast(h, r + 1, b[1..], limit);
    }
  }

  lemma LiesAt(h: seq<Octet>, r: nat, b: seq<Octet>)
    requires Lies(h, r, b) && b != []
    ensures r < |h| && h[r] == b[0]
  {
    assert h[r] == h[r..r + |b|][0];
  }

  /** Reading stops at the first zero. */
  lemma {:induction false} EndCut(h: seq<Octet>, r: nat, ps: seq<bv32>, limit: nat)
    requires InRange(ps) && Lies(h, r, Encode(ps) + [0]) && r + |Encode(ps)| <= limit
    ensures End(h, r, limit) == r + |Encode(Cut(ps))| && Lies(h, r, Encode(Cut(ps)))
    decreases |ps|
  {
    hide Octets, Lies;
    if ps == [] {
      LiesParts(h, r, [], [0]);
      LiesAt(h, r, [0]);
    } else {
      NonZero(ps[0]);
      assert Encode(ps) + [0] == Octets(ps[0]) + (Encode(ps[1..]) + [0]);
      LiesParts(h, r, Octets(ps[0]), Encode(ps[1..]) + [0]);
      if ps[0] == 0 {
        LiesAt(h, r, Octets(ps[0]));
        LiesParts(h, r, [], Octets(ps[0])) by { assert [] + Octets(ps[0]) == Octets(ps[0]); }
      } else {
        EndPast(h, r, Octets(ps[0]), limit);
        EndCut(h, r + |Octets(ps[0])|, ps[1..], limit);
        CutStep(h, r, ps);
      }
    }
  }

  lemma CutStep(h: seq<Octet>, r: nat, ps: seq<bv32>)
    requires InRange(ps) && ps != [] && ps[0] != 0
    requires Lies(h, r, Octets(ps[0])) && Lies(h, r + |Octets(ps[0])|, Encode(Cut(ps[1..])))
    ensures Encode(Cut(ps)) == Octets(ps[0]) + Encode(Cut(ps[1..])) && Lies(h, r, Encode(Cut(ps)))
  {
    hide Octets, Lies;
    LiesBoth(h, r, Octets(ps[0]), Encode(Cut(ps[1..])));
    EncodeCut(ps);
  }

  lemma EncodeCut(ps: seq<bv32>)
    requires InRange(ps) && ps != [] && ps[0] != 0
    ensures Encode(Cut(ps)) == Octets(ps[0]) + Encode(Cut(ps[1..]))
  {
    hide Octets;
    assert Cut(ps)[1..] == Cut(ps[1..]);
  }

  lemma LiesBoth(h: seq<Octet>, r: nat, b: seq<Octet>, c: seq<Octet>)
    requires Lies(h, r, b) && Lies(h, r + |b|, c)
    ensures Lies(h, r, b + c)
  {
    assert h[r..r + |b + c|] == h[r..r + |b|] + h[r + |b|..r + |b| + |c|];
  }

  /** UTF-16 in which every surrogate belongs to a pair. */
  predicate WellFormed(s: seq<Unit>) {
    s == [] ||
    if High(s[0]) then |s| > 1 && Low(s[1]) && WellFormed(s[2..])
    else !Low(s[0]) && WellFormed(s[1..])
  }

  lemma UnitsCut(ps: seq<bv32>)
    requires InRange(ps) && ps != [] && ps[0] != 0
    ensures Units(Cut(ps)) == UnitsOf(ps[0]) + Units(Cut(ps[1..]))
  {
    hide UnitsOf;
    assert Cut(ps)[1..] == Cut(ps[1..]);
  }

  lemma SplitEq(a: seq<Unit>, b: seq<Unit>, s: seq<Unit>)
    requires |a| <= |s|
    ensures a + b == s <==> a == s[..|a|] && b == s[|a|..]
  {
    if a + b == s { assert a == (a + b)[..|a|] && b == (a + b)[|a|..]; }
    if a == s[..|a|] && b == s[|a|..] { assert a + b == s; }
  }

  lemma FirstPoint(s: seq<Unit>)
    requires s != []
    ensures Points(s) != [] && Points(s)[0] == First(s) && Points(s)[1..] == Points(After(s))
    ensures First(s) == 0 <==> s[0] == 0
    ensures !Surrogate(s[0]) ==> UnitsOf(First(s)) == [s[0]]
  {
  }

  /** What comes back is the string itself exactly if it is well formed and has no zero in it. */
  lemma {:induction false} SameUnits(s: seq<Unit>)
    ensures Units(Cut(Points(s))) == s <==> WellFormed(s) && 0 !in s
    decreases |s|
  {
    if s != [] {
      hide Surrogate, First, UnitsOf, Pair, High, Low, Points;
      FirstPoint(s);
      EitherHalf(s[0]);
      if s[0] != 0 {
        UnitsCut(Points(s));
        if Surrogate(s[0]) {
          SamePairFirst(s);
          if |s| > 1 {
            SplitEq(UnitsOf(First(s)), Units(Cut(Points(s[2..]))), s);
            assert s[..2] == [s[0], s[1]];
            SameUnits(s[2..]);
            assert s == [s[0], s[1]] + s[2..];
          }
        } else {
          SplitEq([s[0]], Units(Cut(Points(s[1..]))), s);
          SameUnits(s[1..]);
          assert s == [s[0]] + s[1..];
        }
      }
    }
  }

  lemma SamePairFirst(s: seq<Unit>)
    requires s != [] && Surrogate(s[0])
    ensures |UnitsOf(First(s))| == 2
    ensures |s| > 1 ==> (UnitsOf(First(s)) == [s[0], s[1]] <==> High(s[0]) && Low(s[1])) && (Low(s[1]) ==> s[1] != 0)
  {
    hide UnitsOf, Pair;
    SamePair(s[0], if |s| > 1 then s[1] else 0);
  }

  lemma EncodePrefix(ps: seq<bv32>, m: nat)
    requires InRange(ps) && m <= |ps|
    ensures |Encode(ps[..m])| <= |Encode(ps)|
  {
    hide Octets;
    EncodeMore(ps[..m], ps[m..]);
    assert ps == ps[..m] + ps[m..];
  }

  /** Written with enough room and read back, a string returns exactly if it is well formed and has no zero in it. */
  lemma RoundTrip(e: seq<Unit>, h0: seq<Octet>, h: seq<Octet>, start: nat, m: nat, n: nat, t: nat)
    requires Longest(Points(e), m, n) && n >= |Encode(Points(e))|
    requires Written(h0, h, start, Encode(Points(e)[..m]) + [0]) && t >= |Encode(Points(e))|
    ensures Manual(h, start, End(h, start, start + t)) == e <==> WellFormed(e) && 0 !in e
  {
    hide Octets, Points, First, Decoded, UnitsOf, End, Manual;
    var ps := Points(e);
    EncodePrefix(ps, if m < |ps| then m + 1 else m);
    assert ps[..m] == ps;
    assert h[start..start + |Encode(ps) + [0]|] == Encode(ps) + [0];
    EndCut(h, start, ps, start + t);
    DecodeEncoded(h, start, Cut(ps));
    SameUnits(e);
  }
}

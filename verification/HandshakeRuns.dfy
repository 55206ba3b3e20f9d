/** What the handshake is for: a client that nobody disturbs gets a session, has its requests executed in order, and ends
    the session; and a client that has been refused or has closed stays silent. */
module HandshakeRuns {
  import opened SecureChannel
  import opened Handshake

  /** A run that goes on from any state. */
  function Walk(n: Net, steps: seq<Step>): Net
    decreases |steps|
  {
    if steps == [] then n else Walk(Next(n, steps[0]), steps[1..])
  }

  lemma WalkOne(n: Net, step: Step)
    ensures Walk(n, [step]) == Next(n, step)
  {
    hide Next;
    assert [step][1..] == [];
  }

  lemma {:induction false} WalkOn(n: Net, steps: seq<Step>, more: seq<Step>)
    ensures Walk(n, steps + more) == Walk(Walk(n, steps), more)
    decreases |steps|
  {
    hide Next;
    if steps == [] {
      assert [] + more == more;
    } else {
      assert (steps + more)[1..] == steps[1..] + more;
      WalkOn(Next(n, steps[0]), steps[1..], more);
    }
  }

  lemma {:induction false} RunWalk(psks: map<Id, Psk>, pair: nat, leaked: set<Psk>, steps: seq<Step>, more: seq<Step>)
    ensures Run(psks, pair, leaked, steps + more) == Walk(Run(psks, pair, leaked, steps), more)
    decreases |more|
  {
    hide Next;
    if more == [] {
      assert steps + [] == steps;
    } else {
      var l := |more| - 1;
      assert (steps + more)[..|steps| + l] == steps + more[..l] && more[..l] + [more[l]] == more;
      RunWalk(psks, pair, leaked, steps, more[..l]);
      WalkOn(Run(psks, pair, leaked, steps), more[..l], [more[l]]);
      WalkOne(Walk(Run(psks, pair, leaked, steps), more[..l]), more[l]);
    }
  }

  // ----- a whole session -----

  /** What client and server should take the session to be. */
  function Meant(psk: Psk, pair: nat, t: Transcript): Agreement { Agreement(t, psk, Agreed(pair, t.cipher)) }

  /** A handshake whose messages arrive as they were sent. */
  function Greeting(c: nat, a: Agreement): (steps: seq<Step>) {
    var t := a.transcript;
    [Enroll(t.clientId, a.psk, a.secret.pair, t.cipher, t.nonceC), Begin(t.clientId, t.cipher, t.nonceC, t.nonceS, t.sessionId)]
    + [Answer(c, t.nonceS, t.sessionId, t.epoch), Finish(t.clientId, ProofOf(a, false)), Accept(c, ProofOf(a, true))]
  }

  /** The client's message with number `k`. */
  function Message(a: Agreement, k: nat, name: string): Envelope {
    Envelope(a.transcript.clientId, KeyOf(a, true), a.transcript.sessionId, k, name)
  }

  /** Requests that arrive as they were sent, one after the other. */
  function Requests(c: nat, a: Agreement, k: nat, names: seq<string>): seq<Step>
    decreases |names|
  {
    if names == [] then [] else [Send(c, names[0]), Invoke(Message(a, k, names[0]))] + Requests(c, a, k + 1, names[1..])
  }

  /** Fresh nonces, parts of the right lengths, and the first epoch. */
  ghost predicate Fresh(n: Net, t: Transcript) {
    && t.clientId in n.psks && FixedLengths(t) && t.epoch == FIRST_EPOCH && t.nonceC !in n.noncesC && t.nonceS !in n.noncesS
  }

  lemma Greets(n: Net, a: Agreement)
    requires Fresh(n, a.transcript) && a == Meant(n.psks[a.transcript.clientId], n.pair, a.transcript)
    ensures var (t, m) := (a.transcript, Walk(n, Greeting(|n.clients|, a)[..2]));
      && m.clients == n.clients + [Waiting(t.clientId, a.psk, n.pair, t.cipher, t.nonceC)]
      && m.sessions == n.sessions[t.clientId := Session(a, 0)]
      && m.executed == n.executed && m.ended == n.ended && m.envelopes == n.envelopes
  {
    hide ProofOf, Walk;
    var t := a.transcript;
    var s1, s2 := Enroll(t.clientId, a.psk, a.secret.pair, t.cipher, t.nonceC),
      Begin(t.clientId, t.cipher, t.nonceC, t.nonceS, t.sessionId);
    assert Greeting(|n.clients|, a)[..2] == [s1] + [s2];
    WalkOn(n, [s1], [s2]);
    WalkOne(n, s1);
    WalkOne(Next(n, s1), s2);
  }

  lemma Answers(n: Net, c: nat, a: Agreement)
    requires var t := a.transcript;
      c < |n.clients| && n.clients[c] == Waiting(t.clientId, a.psk, a.secret.pair, t.cipher, t.nonceC) && |t.epoch| == EPOCH
    requires a.transcript.clientId in n.sessions && n.sessions[a.transcript.clientId].a == a && a.secret.cipher == a.transcript.cipher
    ensures var m := Walk(n, Greeting(c, a)[2..]);
      && m.clients == n.clients[c := Connected(a, 0, false)] && m.sessions == n.sessions && a in m.confirmed
      && m.executed == n.executed && m.ended == n.ended && m.envelopes == n.envelopes
  {
    hide ProofOf, Walk;
    var t := a.transcript;
    var s1, s2, s3 := Answer(c, t.nonceS, t.sessionId, t.epoch), Finish(t.clientId, ProofOf(a, false)), Accept(c, ProofOf(a, true));
    assert Greeting(c, a)[2..] == [s1] + ([s2] + [s3]);
    WalkOn(n, [s1], [s2] + [s3]);
    WalkOne(n, s1);
    var n1 := Next(n, s1);
    assert n1.clients[c] == Proving(a);
    WalkOn(n1, [s2], [s3]);
    WalkOne(n1, s2);
    WalkOne(Next(n1, s2), s3);
  }

  /** Client and server are at the same message of the same session. */
  predicate InStep(n: Net, c: nat, a: Agreement, k: nat) {
    && c < |n.clients| && n.clients[c] == Connected(a, k, false)
    && a.transcript.clientId in n.sessions && n.sessions[a.transcript.clientId] == Session(a, k)
  }

  lemma Requested(n: Net, c: nat, a: Agreement, k: nat, name: string)
    requires InStep(n, c, a, k)
    ensures var (m, e) := (Next(Next(n, Send(c, name)), Invoke(Message(a, k, name))), Message(a, k, name));
      m == n.(clients := n.clients[c := Connected(a, k + 1, false)], envelopes := n.envelopes + {e},
              sessions := n.sessions[a.transcript.clientId := Session(a, k + 1)], executed := n.executed + [e])
  {
    hide KeyOf;
  }

  lemma TookLeave(n: Net, c: nat, a: Agreement, k: nat)
    requires InStep(n, c, a, k)
    ensures var (m, e) := (Walk(n, [Dispose(c)] + [Teardown(Message(a, k, "terminate"))]), Message(a, k, "terminate"));
      m == n.(clients := n.clients[c := Connected(a, k + 1, true)], envelopes := n.envelopes + {e},
              sessions := n.sessions - {a.transcript.clientId}, ended := n.ended + [Ending(a, e)])
  {
    hide KeyOf, Walk;
    WalkOn(n, [Dispose(c)], [Teardown(Message(a, k, "terminate"))]);
    WalkOne(n, Dispose(c));
    WalkOne(Next(n, Dispose(c)), Teardown(Message(a, k, "terminate")));
  }

  /** The envelopes of these requests. */
  function Envelopes(a: Agreement, k: nat, names: seq<string>): seq<Envelope> {
    seq(|names|, i requires 0 <= i < |names| => Message(a, k + i, names[i]))
  }

  lemma {:induction false} AllRequested(n: Net, c: nat, a: Agreement, k: nat, names: seq<string>)
    requires InStep(n, c, a, k)
    ensures var m := Walk(n, Requests(c, a, k, names));
      && InStep(m, c, a, k + |names|) && m.executed == n.executed + Envelopes(a, k, names)
      && m.clients == n.clients[c := Connected(a, k + |names|, false)] && m.ended == n.ended && m.confirmed == n.confirmed
      && m.sessions == n.sessions[a.transcript.clientId := Session(a, k + |names|)]
    decreases |names|
  {
    hide Next, Message;
    if names != [] {
      var s1, s2 := Send(c, names[0]), Invoke(Message(a, k, names[0]));
      Requested(n, c, a, k, names[0]);
      var rest := Requests(c, a, k + 1, names[1..]);
      assert Requests(c, a, k, names) == [s1] + ([s2] + rest);
      WalkOn(n, [s1], [s2] + rest);
      WalkOn(Next(n, s1), [s2], rest);
      WalkOne(n, s1);
      WalkOne(Next(n, s1), s2);
      AllRequested(Next(Next(n, s1), s2), c, a, k + 1, names[1..]);
      assert Envelopes(a, k, names) == [Message(a, k, names[0])] + Envelopes(a, k + 1, names[1..]);
    }
  }

  lemma Greeted(n: Net, a: Agreement)
    requires Fresh(n, a.transcript) && a == Meant(n.psks[a.transcript.clientId], n.pair, a.transcript)
    ensures var (c, id, m) := (|n.clients|, a.transcript.clientId, Walk(n, Greeting(|n.clients|, a)));
      && m.clients == n.clients + [Connected(a, 0, false)] && InStep(m, c, a, 0) && a in m.confirmed
      && m.sessions == n.sessions[id := Session(a, 0)] && m.executed == n.executed && m.ended == n.ended
  {
    hide Walk, Greeting, ProofOf;
    var g := Greeting(|n.clients|, a);
    GreetingLength(|n.clients|, a);
    Greets(n, a);
    assert g == g[..2] + g[2..];
    WalkOn(n, g[..2], g[2..]);
    Answers(Walk(n, g[..2]), |n.clients|, a);
  }

  /** All steps of a session. */
  function Visit(c: nat, a: Agreement, names: seq<string>): seq<Step> {
    Greeting(c, a) + (Requests(c, a, 0, names) + ([Dispose(c)] + [Teardown(Message(a, |names|, "terminate"))]))
  }

  lemma Visited(n: Net, a: Agreement, names: seq<string>)
    requires Fresh(n, a.transcript) && a == Meant(n.psks[a.transcript.clientId], n.pair, a.transcript)
    ensures var (k, m) := (|names|, Walk(n, Visit(|n.clients|, a, names)));
      && m.executed == n.executed + Envelopes(a, 0, names) && a in m.confirmed
      && m.clients == n.clients + [Connected(a, k + 1, true)]
      && m.sessions == n.sessions - {a.transcript.clientId} && m.ended == n.ended + [Ending(a, Message(a, k, "terminate"))]
  {
    hide Next, Walk, Greeting, Requests, Message, Envelopes, Meant;
    var (c, k) := (|n.clients|, |names|);
    Greeted(n, a);
    var n1 := Walk(n, Greeting(c, a));
    AllRequested(n1, c, a, 0, names);
    var bye := [Dispose(c)] + [Teardown(Message(a, k, "terminate"))];
    TookLeave(Walk(n1, Requests(c, a, 0, names)), c, a, k);
    WalkOn(n1, Requests(c, a, 0, names), bye);
    WalkOn(n, Greeting(c, a), Requests(c, a, 0, names) + bye);
  }

  /** A whole session that nobody disturbs, after any run whatever: client and server agree on exactly the parts that each of
      them contributed, the requests are executed each once and in order, and the last message takes the session down. */
  lemma WholeSession(psks: map<Id, Psk>, pair: nat, leaked: set<Psk>, steps: seq<Step>, t: Transcript, names: seq<string>)
    requires t.clientId in psks && |t.cipher| == CIPHER && |t.nonceC| == 16 == |t.nonceS| && |t.sessionId| == 8 && t.epoch == [1, 0, 0, 0]
    requires var n := Run(psks, pair, leaked, steps); t.nonceC !in n.noncesC && t.nonceS !in n.noncesS
    ensures var n := Run(psks, pair, leaked, steps);
      var a := Agreement(t, psks[t.clientId], Agreed(pair, t.cipher));
      var m := Run(psks, pair, leaked, steps + Visit(|n.clients|, a, names));
      && m.executed == n.executed + Envelopes(a, 0, names) && a in m.confirmed
      && m.clients == n.clients + [Connected(a, |names| + 1, true)]
      && m.sessions == n.sessions - {t.clientId} && m.ended == n.ended + [Ending(a, Message(a, |names|, "terminate"))]
  {
    hide Run, Walk, Visit, Safe, Message, Envelopes;
    var n := Run(psks, pair, leaked, steps);
    RunSafe(psks, pair, leaked, steps);
    var a := Agreement(t, psks[t.clientId], Agreed(pair, t.cipher));
    Visited(n, a, names);
    RunWalk(psks, pair, leaked, steps, Visit(|n.clients|, a, names));
  }

  lemma GreetingLength(c: nat, a: Agreement)
    ensures |Greeting(c, a)| == 5
  {
  }

  // ----- the end of a client -----

  /** A client that has been refused, or has closed its session. */
  predicate AtEnd(c: Client) { c.Refused? || (c.Connected? && c.closed) }

  lemma EndStep(n: Net, step: Step, c: nat)
    requires c < |n.clients| && AtEnd(n.clients[c])
    ensures c < |Next(n, step).clients| && Next(n, step).clients[c] == n.clients[c]
  {
    hide ProofOf, KeyOf, Opens, CanSay, CanSend;
  }

  lemma {:induction false} EndWalk(n: Net, steps: seq<Step>, c: nat)
    requires c < |n.clients| && AtEnd(n.clients[c])
    ensures c < |Walk(n, steps).clients| && Walk(n, steps).clients[c] == n.clients[c]
    decreases |steps|
  {
    if steps != [] {
      hide Next;
      EndStep(n, steps[0], c);
      EndWalk(Next(n, steps[0]), steps[1..], c);
    }
  }

  /** In every run, a client that is shown a wrong proof is refused for good, and one that has closed its session sends no
      further message under any number. */
  lemma SilentForGood(psks: map<Id, Psk>, pair: nat, leaked: set<Psk>, steps: seq<Step>, c: nat, step: Step, more: seq<Step>)
    requires var n := Run(psks, pair, leaked, steps);
      && c < |n.clients|
      && ((n.clients[c].Proving? && step.Accept? && step.c == c && CanSay(n, step.proof) && step.proof != ProofOf(n.clients[c].a, true))
          || (n.clients[c].Connected? && !n.clients[c].closed && step == Dispose(c)))
    ensures var n, m := Run(psks, pair, leaked, steps), Run(psks, pair, leaked, steps + [step] + more);
      && c < |m.clients|
      && m.clients[c] == if step.Accept? then Refused else Connected(n.clients[c].a, n.clients[c].sent + 1, true)
  {
    hide Run, ProofOf, KeyOf, CanSay, CanSend, Opens;
    RunLast(psks, pair, leaked, steps, step);
    RunWalk(psks, pair, leaked, steps + [step], more);
    EndWalk(Run(psks, pair, leaked, steps + [step]), more, c);
  }

  // ----- nonces -----

  /** The nonce that a client has drawn, as long as it may get a session with it. */
  function NonceOf(c: Client): set<Bytes> {
    match c
    case Waiting(_, _, _, _, nonceC) => {nonceC}
    case Proving(a) => {a.transcript.nonceC}
    case Connected(a, _, _) => {a.transcript.nonceC}
    case Refused => {}
  }

  ghost predicate OwnNonces(n: Net) {
    && (forall c :: 0 <= c < |n.clients| ==> NonceOf(n.clients[c]) <= n.noncesC)
    && (forall c, d :: 0 <= c < d < |n.clients| ==> NonceOf(n.clients[c]) !! NonceOf(n.clients[d]))
  }

  /** Clients keep their nonces or drop them, and a new client has a new one. */
  ghost predicate Draws(n: Net, m: Net) {
    && n.noncesC <= m.noncesC && |n.clients| <= |m.clients| <= |n.clients| + 1
    && (forall c :: 0 <= c < |n.clients| ==> NonceOf(m.clients[c]) <= NonceOf(n.clients[c]))
    && (|m.clients| > |n.clients| ==> NonceOf(m.clients[|n.clients|]) <= m.noncesC && NonceOf(m.clients[|n.clients|]) !! n.noncesC)
  }

  lemma NonceStep(n: Net, step: Step)
    ensures Draws(n, Next(n, step))
  {
    hide ProofOf, KeyOf, Opens, CanSay, CanSend;
  }

  lemma StillOwn(n: Net, m: Net)
    requires OwnNonces(n) && Draws(n, m)
    ensures OwnNonces(m)
  {
    hide NonceOf;
    forall c, d | 0 <= c < d < |m.clients| ensures NonceOf(m.clients[c]) !! NonceOf(m.clients[d]) {
      assert NonceOf(m.clients[c]) <= NonceOf(n.clients[c]);
      if d < |n.clients| { assert NonceOf(m.clients[d]) <= NonceOf(n.clients[d]); }
    }
  }

  lemma {:induction false} RunNonces(psks: map<Id, Psk>, pair: nat, leaked: set<Psk>, steps: seq<Step>)
    ensures OwnNonces(Run(psks, pair, leaked, steps))
  {
    if steps != [] {
      hide Next, OwnNonces, Draws;
      var n := Run(psks, pair, leaked, steps[..|steps| - 1]);
      RunNonces(psks, pair, leaked, steps[..|steps| - 1]);
      NonceStep(n, steps[|steps| - 1]);
      StillOwn(n, Next(n, steps[|steps| - 1]));
    }
  }

  /** In every run, no two clients are ever in the same session, nor do they have a key in common. */
  lemma OneClientEach(psks: map<Id, Psk>, pair: nat, leaked: set<Psk>, steps: seq<Step>, c: nat, d: nat)
    requires var n := Run(psks, pair, leaked, steps);
      c < d < |n.clients| && n.clients[c].Connected? && n.clients[d].Connected?
    ensures var n := Run(psks, pair, leaked, steps);
      forall up, down :: KeyOf(n.clients[c].a, up) != KeyOf(n.clients[d].a, down)
  {
    hide Run;
    RunNonces(psks, pair, leaked, steps);
    var n := Run(psks, pair, leaked, steps);
    assert n.clients[c].a.transcript.nonceC in NonceOf(n.clients[c]);
  }
}

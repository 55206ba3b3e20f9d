/** The handshake between client and service as a transition system: messages are delivered,
    replayed, mixed up or made up by the network in any order, except that nobody can use a
    pre-shared key that has not leaked. */
module Handshake {
  import opened SecureChannel

  datatype Envelope = Envelope(clientId: Id, key: Key, sessionId: Bytes, number: nat, name: string)

  /** A session of the server, and the number of the message it expects. */
  datatype Session = Session(a: Agreement, expected: nat)

  /** A session that was removed, and the message that did it. */
  datatype Ending = Ending(a: Agreement, envelope: Envelope)

  /** `closed` tells whether `DisposeAsync` has been called. */
  datatype Client =
    | Waiting(id: Id, psk: Psk, pair: nat, cipher: Bytes, nonceC: Bytes)
    | Proving(a: Agreement)
    | Connected(a: Agreement, sent: nat, closed: bool)
    | Refused

  /** The server, all client objects, and everything that has been on the network. `created`, `confirmed`
      and `proposed` remember the sessions that the server made, the sessions whose client proof it
      accepted, and the sessions that clients offered a proof for; `ended` those that a teardown removed. */
  datatype Net = Net(
    psks: map<Id, Psk>, pair: nat, leaked: set<Psk>,
    sessions: map<Id, Session>, clients: seq<Client>,
    proofs: set<Proof>, envelopes: set<Envelope>, executed: seq<Envelope>,
    created: set<Agreement>, confirmed: set<Agreement>, proposed: set<Agreement>, ended: seq<Ending>,
    noncesC: set<Bytes>, noncesS: set<Bytes>)

  datatype Step =
    | Enroll(id: Id, psk: Psk, pair: nat, cipher: Bytes, nonceC: Bytes)
    | Begin(id: Id, cipher: Bytes, nonceC: Bytes, nonceS: Bytes, sessionId: Bytes)
    | Answer(c: nat, nonceS: Bytes, sessionId: Bytes, epoch: Bytes)
    | Finish(id: Id, proof: Proof)
    | Accept(c: nat, proof: Proof)
    | Send(c: nat, name: string)
    | Dispose(c: nat)
    | Invoke(envelope: Envelope)
    | Teardown(envelope: Envelope)

  /** What the network can come up with. */
  predicate CanSay(n: Net, p: Proof) { p in n.proofs || p.key.psk in n.leaked }

  predicate CanSend(n: Net, e: Envelope) { e in n.envelopes || e.key.psk in n.leaked }

  /** What the client takes the session to be after the server's answer. */
  function Offered(c: Client, nonceS: Bytes, sessionId: Bytes, epoch: Bytes): Agreement
    requires c.Waiting?
  {
    Agreement(Transcript(c.id, c.cipher, c.nonceC, nonceS, sessionId, epoch), c.psk, Agreed(c.pair, c.cipher))
  }

  function Made(n: Net, id: Id, cipher: Bytes, nonceC: Bytes, nonceS: Bytes, sessionId: Bytes): Agreement
    requires id in n.psks
  {
    Agreement(Transcript(id, cipher, nonceC, nonceS, sessionId, FIRST_EPOCH), n.psks[id], Agreed(n.pair, cipher))
  }

  /** One step; a message that its receiver rejects changes nothing. */
  function Next(n: Net, step: Step): Net {
    match step
    // The client has a public key, of whatever key pair, and sends cipher and nonce.
    case Enroll(id, psk, pair, cipher, nonceC) =>
      if |cipher| != CIPHER || |nonceC| != NONCE || nonceC in n.noncesC then n
      else n.(clients := n.clients + [Waiting(id, psk, pair, cipher, nonceC)], noncesC := n.noncesC + {nonceC})
    // BeginHandshakeAsync: an unknown identity is refused, an old session replaced.
    case Begin(id, cipher, nonceC, nonceS, sessionId) =>
      if id !in n.psks || |nonceS| != NONCE || |sessionId| != SESSION_ID || nonceS in n.noncesS then n
      else
        var a := Made(n, id, cipher, nonceC, nonceS, sessionId);
        n.(sessions := n.sessions[id := Session(a, 0)], created := n.created + {a}, noncesS := n.noncesS + {nonceS})
    // The client takes the server's nonce and session id as they come; the epoch is a number of fixed width.
    case Answer(c, nonceS, sessionId, epoch) =>
      if c >= |n.clients| || !n.clients[c].Waiting? || |epoch| != EPOCH then n
      else
        var a := Offered(n.clients[c], nonceS, sessionId, epoch);
        n.(clients := n.clients[c := Proving(a)], proofs := n.proofs + {ProofOf(a, false)}, proposed := n.proposed + {a})
    // FinishHandshakeAsync.
    case Finish(id, proof) =>
      if id !in n.sessions || !CanSay(n, proof) || proof != ProofOf(n.sessions[id].a, false) then n
      else n.(proofs := n.proofs + {ProofOf(n.sessions[id].a, true)}, confirmed := n.confirmed + {n.sessions[id].a})
    // The end of ConnectAsync.
    case Accept(c, proof) =>
      if c >= |n.clients| || !n.clients[c].Proving? || !CanSay(n, proof) then n
      else if proof == ProofOf(n.clients[c].a, true) then n.(clients := n.clients[c := Connected(n.clients[c].a, 0, false)])
      else n.(clients := n.clients[c := Refused])
    case Send(c, name) =>
      if c >= |n.clients| || !n.clients[c].Connected? || n.clients[c].closed then n else Sending(n, c, name, false)
    // DisposeAsync: the client sends one more message, and nothing after that.
    case Dispose(c) =>
      if c >= |n.clients| || !n.clients[c].Connected? || n.clients[c].closed then n else Sending(n, c, "terminate", true)
    // InvokeAsync: it takes a session and an authentic envelope, but no finished handshake.
    case Invoke(e) =>
      if !CanSend(n, e) || e.clientId !in n.sessions || !Opens(n.sessions[e.clientId], e) then n
      else
        var s := n.sessions[e.clientId];
        n.(sessions := n.sessions[e.clientId := Session(s.a, s.expected + 1)], executed := n.executed + [e])
    // FinishAsync: whatever opens on the session ends it; what the message says is not looked at.
    case Teardown(e) =>
      if !CanSend(n, e) || e.clientId !in n.sessions || !Opens(n.sessions[e.clientId], e) then n
      else n.(sessions := n.sessions - {e.clientId}, ended := n.ended + [Ending(n.sessions[e.clientId].a, e)])
  }

  /** The next message of a connected client. */
  function Sending(n: Net, c: nat, name: string, closed: bool): Net
    requires c < |n.clients| && n.clients[c].Connected?
  {
    var (a, k) := (n.clients[c].a, n.clients[c].sent);
    n.(clients := n.clients[c := Connected(a, k + 1, closed)],
      envelopes := n.envelopes + {Envelope(a.transcript.clientId, KeyOf(a, true), a.transcript.sessionId, k, name)})
  }

  /** The envelope decrypts on the session's client channel. */
  predicate Opens(s: Session, e: Envelope) {
    e.key == KeyOf(s.a, true) && e.sessionId == s.a.transcript.sessionId && e.number == s.expected
  }

  function Start(psks: map<Id, Psk>, pair: nat, leaked: set<Psk>): Net {
    Net(psks, pair, leaked, map[], [], {}, {}, [], {}, {}, {}, [], {}, {})
  }

  function Run(psks: map<Id, Psk>, pair: nat, leaked: set<Psk>, steps: seq<Step>): Net {
    if steps == [] then Start(psks, pair, leaked)
    else Next(Run(psks, pair, leaked, steps[..|steps| - 1]), steps[|steps| - 1])
  }

  // ----- what every run keeps -----

  ghost predicate ServerSide(n: Net) {
    && (forall a :: a in n.created ==>
          && a.transcript.clientId in n.psks && a.psk == n.psks[a.transcript.clientId]
          && a.secret == Agreed(n.pair, a.transcript.cipher) && a.transcript.nonceS in n.noncesS
          && |a.transcript.nonceS| == NONCE && |a.transcript.sessionId| == SESSION_ID && |a.transcript.epoch| == EPOCH)
    && (forall id :: id in n.sessions ==> n.sessions[id].a in n.created && n.sessions[id].a.transcript.clientId == id)
    && n.confirmed <= n.created
    && (forall a, b :: a in n.created && b in n.created && a.transcript.nonceS == b.transcript.nonceS ==> a == b)
  }

  ghost predicate ClientSide(n: Net) {
    && (forall a :: a in n.proposed ==> |a.transcript.epoch| == EPOCH && a.secret.cipher == a.transcript.cipher)
    && (forall c :: 0 <= c < |n.clients| && (n.clients[c].Proving? || n.clients[c].Connected?) ==> n.clients[c].a in n.proposed)
  }

  /** Where proofs come from. */
  ghost predicate Proofs(n: Net) {
    && (forall p :: p in n.proofs && p.fromServer ==> exists a :: a in n.confirmed && p == ProofOf(a, true))
    && (forall p :: p in n.proofs && !p.fromServer ==> exists a :: a in n.proposed && p == ProofOf(a, false))
  }

  /** Some client has offered a proof that is as good for this session. */
  ghost predicate Matched(n: Net, a: Agreement) {
    exists b :: b in n.proposed && ProofOf(b, false) == ProofOf(a, false)
  }

  /** The key has not leaked, and the session id has the server's length. */
  predicate Regular(n: Net, a: Agreement) { a.psk !in n.leaked && |a.transcript.sessionId| == SESSION_ID }

  /** The two theorems as invariants. */
  ghost predicate Agree(n: Net) {
    && (forall c :: 0 <= c < |n.clients| && n.clients[c].Connected? && Regular(n, n.clients[c].a) ==> n.clients[c].a in n.confirmed)
    && (forall a :: a in n.confirmed && a.psk !in n.leaked ==> Matched(n, a))
  }

  ghost predicate Safe(n: Net) {
    ServerSide(n) && ClientSide(n) && Proofs(n) && Agree(n)
  }

  /** Equal proofs are about the same session. */
  lemma SameProof(a: Agreement, b: Agreement, fromServer: bool)
    requires ProofOf(a, fromServer) == ProofOf(b, fromServer)
    requires a.secret.cipher == a.transcript.cipher && b.secret.cipher == b.transcript.cipher
    requires |a.transcript.sessionId| == |b.transcript.sessionId| && |a.transcript.epoch| == |b.transcript.epoch|
    ensures a == b
  {
    hide Raw;
    SameParts(a.transcript, b.transcript);
  }

  lemma ServerStep(n: Net, step: Step)
    requires ServerSide(n)
    ensures ServerSide(Next(n, step))
  {
    hide *;
    if step.Begin? { ServerBegin(n, step); } else { ServerSame(n, step); }
  }

  lemma ServerBegin(n: Net, step: Step)
    requires ServerSide(n) && step.Begin?
    ensures ServerSide(Next(n, step))
  {
    hide ProofOf, Raw, KeyOf, CanSay, CanSend, Opens;
  }

  lemma ServerSame(n: Net, step: Step)
    requires ServerSide(n) && !step.Begin?
    ensures ServerSide(Next(n, step))
  {
    hide Next;
    NothingMade(n, step);
  }

  lemma NothingMade(n: Net, step: Step)
    requires !step.Begin?
    ensures var n' := Next(n, step);
      && n'.created == n.created && n'.noncesS == n.noncesS && n'.psks == n.psks && n'.pair == n.pair
      && (forall id :: id in n'.sessions ==> id in n.sessions && n'.sessions[id].a == n.sessions[id].a)
      && (n'.confirmed == n.confirmed || (step.Finish? && step.id in n.sessions && n'.confirmed == n.confirmed + {n.sessions[step.id].a}))
  {
    hide ProofOf, Raw, KeyOf, CanSay, CanSend, Opens;
  }

  lemma ClientStep(n: Net, step: Step)
    requires ClientSide(n)
    ensures ClientSide(Next(n, step))
  {
    hide ProofOf, Raw;
  }

  lemma ProofsStep(n: Net, step: Step)
    requires Proofs(n)
    ensures Proofs(Next(n, step))
  {
    hide KeyOf, Raw;
  }

  lemma AgreeStep(n: Net, step: Step)
    requires Safe(n)
    ensures Agree(Next(n, step))
  {
    hide Raw, ProofOf, CanSay, Matched, ServerSide, ClientSide, Proofs;
    MatchedStays(n, step);
    match step
    case Accept(c, proof) =>
      if c < |n.clients| && n.clients[c].Proving? && CanSay(n, proof) && proof == ProofOf(n.clients[c].a, true)
        && n.clients[c].a.psk !in n.leaked {
        Said(n, n.clients[c].a, true);
        if |n.clients[c].a.transcript.sessionId| == SESSION_ID { ConfirmedFor(n, c); }
      }
    case Finish(id, proof) =>
      if id in n.sessions && CanSay(n, proof) && proof == ProofOf(n.sessions[id].a, false) && n.sessions[id].a.psk !in n.leaked {
        Said(n, n.sessions[id].a, false);
        MatchedFor(n, n.sessions[id].a);
      }
    case _ =>
  }

  lemma MatchedStays(n: Net, step: Step)
    ensures forall a :: Matched(n, a) ==> Matched(Next(n, step), a)
  {
    hide ProofOf, Raw, KeyOf;
    assert n.proposed <= Next(n, step).proposed;
  }

  lemma Said(n: Net, a: Agreement, fromServer: bool)
    requires CanSay(n, ProofOf(a, fromServer)) && a.psk !in n.leaked
    ensures ProofOf(a, fromServer) in n.proofs
  {
  }

  lemma ConfirmedFor(n: Net, c: nat)
    requires Safe(n) && c < |n.clients| && n.clients[c].Proving? && |n.clients[c].a.transcript.sessionId| == SESSION_ID
    requires ProofOf(n.clients[c].a, true) in n.proofs
    ensures n.clients[c].a in n.confirmed
  {
    hide Raw;
    var a := n.clients[c].a;
    var b :| b in n.confirmed && ProofOf(a, true) == ProofOf(b, true);
    SameProof(a, b, true);
  }

  lemma MatchedFor(n: Net, a: Agreement)
    requires Proofs(n) && ProofOf(a, false) in n.proofs
    ensures Matched(Next(n, Finish(a.transcript.clientId, ProofOf(a, false))), a) && Matched(n, a)
  {
    hide Raw, KeyOf;
  }

  lemma {:induction false} RunSafe(psks: map<Id, Psk>, pair: nat, leaked: set<Psk>, steps: seq<Step>)
    ensures Safe(Run(psks, pair, leaked, steps))
    ensures var n := Run(psks, pair, leaked, steps); n.psks == psks && n.pair == pair && n.leaked == leaked
  {
    if steps != [] {
      var n := Run(psks, pair, leaked, steps[..|steps| - 1]);
      RunSafe(psks, pair, leaked, steps[..|steps| - 1]);
      ServerStep(n, steps[|steps| - 1]);
      ClientStep(n, steps[|steps| - 1]);
      ProofsStep(n, steps[|steps| - 1]);
      AgreeStep(n, steps[|steps| - 1]);
      Constant(n, steps[|steps| - 1]);
      hide ServerSide, ClientSide, Proofs, Agree, Next;
    }
  }

  lemma Constant(n: Net, step: Step)
    ensures var n' := Next(n, step); n'.psks == n.psks && n'.pair == n.pair && n'.leaked == n.leaked
  {
  }

  /** Agreement: once `ConnectAsync` has returned, the server has made a session for this client id with the very
      same transcript, secret and pre-shared key, hence the same two directional keys, and has accepted the client's
      proof, if and only if the session id that the client was given has the length of the server's session ids. */
  lemma BothAgree(psks: map<Id, Psk>, pair: nat, leaked: set<Psk>, steps: seq<Step>, c: nat)
    requires var n := Run(psks, pair, leaked, steps);
      c < |n.clients| && n.clients[c].Connected? && n.clients[c].a.psk !in leaked
    ensures var n := Run(psks, pair, leaked, steps);
      var a := n.clients[c].a;
      && (a in n.created <==> |a.transcript.sessionId| == 8)
      && (a in n.created ==>
            && a in n.confirmed
            && a.transcript.clientId in psks && a.psk == psks[a.transcript.clientId]
            && a.secret == Agreed(pair, a.transcript.cipher))
  {
    hide Run, Next, Proofs, ClientSide, Matched;
    RunSafe(psks, pair, leaked, steps);
  }

  /** The server accepts a proof only for a session to which some client has the same keys, and which that client takes
      for the same if its session id has the right length. */
  lemma Confirmation(psks: map<Id, Psk>, pair: nat, leaked: set<Psk>, steps: seq<Step>, a: Agreement) returns (b: Agreement)
    requires a in Run(psks, pair, leaked, steps).confirmed && a.psk !in leaked
    ensures b in Run(psks, pair, leaked, steps).proposed
    ensures KeyOf(b, true) == KeyOf(a, true) && KeyOf(b, false) == KeyOf(a, false)
    ensures |b.transcript.sessionId| == 8 ==> b == a
  {
    hide Run, Next, Proofs, Raw;
    RunSafe(psks, pair, leaked, steps);
    var n := Run(psks, pair, leaked, steps);
    assert Matched(n, a);
    b :| b in n.proposed && ProofOf(b, false) == ProofOf(a, false);
    if |b.transcript.sessionId| == SESSION_ID { SameProof(b, a, false); }
  }

  lemma RunLast(psks: map<Id, Psk>, pair: nat, leaked: set<Psk>, steps: seq<Step>, step: Step)
    ensures Run(psks, pair, leaked, steps + [step]) == Next(Run(psks, pair, leaked, steps), step)
  {
    hide Next;
    assert (steps + [step])[..|steps|] == steps;
  }

  /** What the client "a" and the server take a session to be whose messages are stretched on the way. */
  function Mine(psk: Psk): Agreement { Agreement(Uniform("a", SESSION_ID + 1, FIRST_EPOCH), psk, Agreed(0, Letters(CIPHER))) }

  function Theirs(psk: Psk): Agreement { Agreement(Uniform("aa", SESSION_ID, FIRST_EPOCH), psk, Agreed(0, Letters(CIPHER))) }

  lemma SameToBoth(psk: Psk, fromServer: bool)
    ensures ProofOf(Mine(psk), fromServer) == ProofOf(Theirs(psk), fromServer)
  {
    hide Raw, Letters;
    RawAmbiguous(FIRST_EPOCH);
  }

  lemma Stretched(psk: Psk) returns (steps: seq<Step>)
    ensures var n := Run(map["aa" := psk], 0, {}, steps);
      && n.clients == [Proving(Mine(psk))] && n.sessions == map["aa" := Session(Theirs(psk), 0)]
      && ProofOf(Mine(psk), false) in n.proofs
  {
    hide Raw, Letters, KeyOf, Run;
    var psks := map["aa" := psk];
    Lengths();
    var s1 := Enroll("a", psk, 0, Letters(CIPHER), Letters(NONCE));
    var s2 := Begin("aa", Letters(CIPHER), Letters(NONCE), Letters(NONCE), Letters(SESSION_ID));
    var s3 := Answer(0, Letters(NONCE), Letters(SESSION_ID + 1), FIRST_EPOCH);
    RunNothing(psks, 0, {});
    RunLast(psks, 0, {}, [], s1);
    RunLast(psks, 0, {}, [] + [s1], s2);
    RunLast(psks, 0, {}, [] + [s1] + [s2], s3);
    steps := [] + [s1] + [s2] + [s3];
    var n1 := Next(Start(psks, 0, {}), s1);
    assert n1.clients == [Waiting("a", psk, 0, Letters(CIPHER), Letters(NONCE))];
    var n2 := Next(n1, s2);
    assert n2.sessions == map["aa" := Session(Theirs(psk), 0)] && n2.clients == n1.clients;
    var n3 := Next(n2, s3);
    assert n3.clients == [Proving(Mine(psk))];
  }

  lemma RunNothing(psks: map<Id, Psk>, pair: nat, leaked: set<Psk>)
    ensures Run(psks, pair, leaked, []) == Start(psks, pair, leaked)
  {
  }

  /** The client does not look at the length of the session id, so a network that stretches it, and shortens the client
      id, can make the two sides finish a handshake with different views, without knowing any key. */
  lemma Disagreement(psk: Psk) returns (steps: seq<Step>)
    ensures var n := Run(map["aa" := psk], 0, {}, steps);
      && |n.clients| == 1 && n.clients[0].Connected? && n.clients[0].a == Mine(psk) && n.clients[0].a !in n.created
      && "aa" in n.sessions && n.sessions["aa"].a == Theirs(psk) && Theirs(psk) in n.confirmed
      && KeyOf(Mine(psk), true) == KeyOf(Theirs(psk), true) && Mine(psk).transcript.clientId != Theirs(psk).transcript.clientId
  {
    hide Raw, Letters, Run, Safe;
    var psks := map["aa" := psk];
    var less := Stretched(psk);
    SameToBoth(psk, false);
    SameToBoth(psk, true);
    Lengths();
    var n3 := Run(psks, 0, {}, less);
    var s4 := Finish("aa", ProofOf(Theirs(psk), false));
    var s5 := Accept(0, ProofOf(Mine(psk), true));
    RunLast(psks, 0, {}, less, s4);
    RunLast(psks, 0, {}, less + [s4], s5);
    steps := less + [s4] + [s5];
    var n4 := Next(n3, s4);
    assert ProofOf(Theirs(psk), true) in n4.proofs && n4.clients == n3.clients && n4.sessions == n3.sessions && Theirs(psk) in n4.confirmed;
    NotCreated(psks, 0, {}, steps, Mine(psk));
  }

  lemma NotCreated(psks: map<Id, Psk>, pair: nat, leaked: set<Psk>, steps: seq<Step>, a: Agreement)
    requires |a.transcript.sessionId| != SESSION_ID
    ensures a !in Run(psks, pair, leaked, steps).created
  {
    hide Run, Raw;
    RunSafe(psks, pair, leaked, steps);
  }

  lemma Lengths()
    ensures |Letters(CIPHER)| == CIPHER && |Letters(NONCE)| == NONCE && |Letters(SESSION_ID)| == SESSION_ID
    ensures |Letters(SESSION_ID + 1)| == SESSION_ID + 1 && |FIRST_EPOCH| == EPOCH
  {
  }

  // ----- requests -----

  /** Sessions never share a server nonce, and what was executed under the key of a session is older than what it expects. */
  ghost predicate Sequenced(n: Net) {
    && (forall i, j :: i in n.sessions && j in n.sessions && i != j ==>
          n.sessions[i].a.transcript.nonceS != n.sessions[j].a.transcript.nonceS)
    && (forall i :: i in n.sessions ==> n.sessions[i].a.transcript.nonceS in n.noncesS)
    && (forall x :: 0 <= x < |n.executed| ==> n.executed[x].key.nonceS in n.noncesS)
    && (forall x, i :: 0 <= x < |n.executed| && i in n.sessions && n.executed[x].key == KeyOf(n.sessions[i].a, true) ==>
          n.executed[x].number < n.sessions[i].expected)
    && (forall x, y :: 0 <= x < y < |n.executed| && n.executed[x].key == n.executed[y].key ==> n.executed[x].number < n.executed[y].number)
  }

  /** Every envelope was sent by a connected client, and only such envelopes are executed. */
  ghost predicate Authentic(n: Net) {
    && (forall e :: e in n.envelopes ==> SentBy(n, e))
    && (forall x :: 0 <= x < |n.executed| && n.executed[x].key.psk !in n.leaked ==> n.executed[x] in n.envelopes)
  }

  ghost predicate SentBy(n: Net, e: Envelope) {
    exists c :: 0 <= c < |n.clients| && n.clients[c].Connected? && Sent(n.clients[c], e)
  }

  predicate Sent(c: Client, e: Envelope)
    requires c.Connected?
  {
    && e.key == KeyOf(c.a, true) && e.clientId == c.a.transcript.clientId && e.sessionId == c.a.transcript.sessionId
    && e.number < c.sent
  }

  lemma SequencedStep(n: Net, step: Step)
    requires Sequenced(n)
    ensures Sequenced(Next(n, step))
  {
    hide Sequenced, Next;
    if step.Begin? { SequencedBegin(n, step); }
    else if step.Invoke? { SequencedInvoke(n, step); }
    else if step.Teardown? { SequencedTeardown(n, step); }
    else { SequencedSame(n, step); }
  }

  lemma SequencedSame(n: Net, step: Step)
    requires Sequenced(n) && !step.Begin? && !step.Invoke? && !step.Teardown?
    ensures Sequenced(Next(n, step))
  {
    hide Next, Sequenced;
    NothingServed(n, step);
    SequencedAlike(n, Next(n, step));
  }

  lemma NothingServed(n: Net, step: Step)
    requires !step.Begin? && !step.Invoke? && !step.Teardown?
    ensures var n' := Next(n, step); n'.sessions == n.sessions && n'.executed == n.executed && n'.noncesS == n.noncesS
  {
    hide ProofOf, Raw, KeyOf, Opens, CanSend, CanSay, Made;
  }

  lemma SequencedAlike(n: Net, n': Net)
    requires Sequenced(n) && n'.sessions == n.sessions && n'.executed == n.executed && n'.noncesS == n.noncesS
    ensures Sequenced(n')
  {
    hide KeyOf;
  }

  lemma SequencedBegin(n: Net, step: Step)
    requires Sequenced(n) && step.Begin?
    ensures Sequenced(Next(n, step))
  {
    hide ProofOf, Raw;
  }

  lemma SequencedTeardown(n: Net, step: Step)
    requires Sequenced(n) && step.Teardown?
    ensures Sequenced(Next(n, step))
  {
    hide ProofOf, Raw, KeyOf, Opens, CanSend;
  }

  lemma SequencedInvoke(n: Net, step: Step)
    requires Sequenced(n) && step.Invoke?
    ensures Sequenced(Next(n, step))
  {
    hide ProofOf, Raw;
  }

  lemma StillSent(n: Net, step: Step, e: Envelope)
    requires SentBy(n, e)
    ensures SentBy(Next(n, step), e)
  {
    hide ProofOf, Raw, KeyOf;
    var c :| 0 <= c < |n.clients| && n.clients[c].Connected? && Sent(n.clients[c], e);
    var n' := Next(n, step);
    assert c < |n'.clients| && n'.clients[c].Connected? && Sent(n'.clients[c], e);
  }

  lemma AuthenticStep(n: Net, step: Step)
    requires Authentic(n)
    ensures Authentic(Next(n, step))
  {
    hide ProofOf, Raw, KeyOf, SentBy, Sent, Opens;
    var n' := Next(n, step);
    forall e | e in n'.envelopes
      ensures SentBy(n', e)
    {
      if e in n.envelopes { StillSent(n, step, e); } else { JustSent(n, step, e); }
    }
  }

  lemma JustSent(n: Net, step: Step, e: Envelope)
    requires e in Next(n, step).envelopes && e !in n.envelopes
    ensures SentBy(Next(n, step), e)
  {
    hide ProofOf, Raw;
    assert step.Send? || step.Dispose?;
    var n' := Next(n, step);
    assert n'.clients[step.c].Connected? && Sent(n'.clients[step.c], e);
  }

  lemma {:induction false} RunRequests(psks: map<Id, Psk>, pair: nat, leaked: set<Psk>, steps: seq<Step>)
    ensures Sequenced(Run(psks, pair, leaked, steps)) && Authentic(Run(psks, pair, leaked, steps))
  {
    if steps != [] {
      var n := Run(psks, pair, leaked, steps[..|steps| - 1]);
      RunRequests(psks, pair, leaked, steps[..|steps| - 1]);
      SequencedStep(n, steps[|steps| - 1]);
      AuthenticStep(n, steps[|steps| - 1]);
      hide Sequenced, Authentic, Next;
    }
  }

  /** Whatever the server executes under a key that has not leaked was sent by a client that had completed
      the handshake on exactly this session, and no request is executed twice. */
  lemma ExecutedOnce(psks: map<Id, Psk>, pair: nat, leaked: set<Psk>, steps: seq<Step>, x: nat)
    requires x < |Run(psks, pair, leaked, steps).executed| && Run(psks, pair, leaked, steps).executed[x].key.psk !in leaked
    ensures var n := Run(psks, pair, leaked, steps);
      && SentBy(n, n.executed[x])
      && (forall y :: 0 <= y < |n.executed| && y != x ==> n.executed[y] != n.executed[x])
  {
    hide Run, Next, SentBy, ServerSide, ClientSide, Proofs, Agree;
    RunSafe(psks, pair, leaked, steps);
    RunRequests(psks, pair, leaked, steps);
  }

  // ----- teardown -----

  /** The client is connected on this very session, and has sent this message. */
  ghost predicate EndedBy(n: Net, x: Ending) {
    exists c :: 0 <= c < |n.clients| && n.clients[c].Connected? && n.clients[c].a == x.a && Sent(n.clients[c], x.envelope)
  }

  ghost predicate Endings(n: Net) {
    forall x :: x in n.ended && x.a.psk !in n.leaked ==> EndedBy(n, x)
  }

  lemma EndedStays(n: Net, step: Step, x: Ending)
    requires EndedBy(n, x)
    ensures EndedBy(Next(n, step), x)
  {
    hide ProofOf, Raw, KeyOf;
    var c :| 0 <= c < |n.clients| && n.clients[c].Connected? && n.clients[c].a == x.a && Sent(n.clients[c], x.envelope);
    var n' := Next(n, step);
    assert c < |n'.clients| && n'.clients[c].Connected? && n'.clients[c].a == x.a && Sent(n'.clients[c], x.envelope);
  }

  /** A message opens on a session only if its sender is connected on that session: the server's nonce is never used twice. */
  lemma OwnSession(n: Net, id: Id, e: Envelope)
    requires Safe(n) && Authentic(n) && id in n.sessions && CanSend(n, e) && Opens(n.sessions[id], e)
    requires n.sessions[id].a.psk !in n.leaked
    ensures EndedBy(n, Ending(n.sessions[id].a, e))
  {
    hide Raw, ProofOf, Proofs, Matched;
    assert SentBy(n, e);
    var c :| 0 <= c < |n.clients| && n.clients[c].Connected? && Sent(n.clients[c], e);
    assert n.clients[c].a in n.created;
    assert n.clients[c].a == n.sessions[id].a;
  }

  lemma EndingsStep(n: Net, step: Step)
    requires Safe(n) && Authentic(n) && Endings(n)
    ensures Endings(Next(n, step))
  {
    hide ProofOf, Raw, KeyOf, Safe, Authentic, EndedBy, Opens, CanSend;
    var n' := Next(n, step);
    forall x | x in n'.ended && x.a.psk !in n'.leaked
      ensures EndedBy(n', x)
    {
      if x in n.ended {
        EndedStays(n, step, x);
      } else {
        OwnSession(n, step.envelope.clientId, step.envelope);
        EndedStays(n, step, x);
      }
    }
  }

  lemma {:induction false} RunEndings(psks: map<Id, Psk>, pair: nat, leaked: set<Psk>, steps: seq<Step>)
    ensures Endings(Run(psks, pair, leaked, steps))
  {
    if steps != [] {
      hide Safe, Authentic, Sequenced, Endings, Next;
      var less := steps[..|steps| - 1];
      RunEndings(psks, pair, leaked, less);
      RunSafe(psks, pair, leaked, less);
      RunRequests(psks, pair, leaked, less);
      EndingsStep(Run(psks, pair, leaked, less), steps[|steps| - 1]);
    }
  }

  /** In every run, a session under a key that has not leaked is removed by a message of a client that is connected on this
      very session; no other client, stale or not, can end it. */
  lemma EndedByOwn(psks: map<Id, Psk>, pair: nat, leaked: set<Psk>, steps: seq<Step>, x: Ending) returns (c: nat)
    requires x in Run(psks, pair, leaked, steps).ended && x.a.psk !in leaked
    ensures var n := Run(psks, pair, leaked, steps);
      c < |n.clients| && n.clients[c].Connected? && n.clients[c].a == x.a && Sent(n.clients[c], x.envelope)
  {
    hide Run, Next, Sent, Safe;
    RunEndings(psks, pair, leaked, steps);
    RunSafe(psks, pair, leaked, steps);
    SafeLeaked(psks, pair, leaked, steps);
    var n := Run(psks, pair, leaked, steps);
    assert EndedBy(n, x);
    c :| 0 <= c < |n.clients| && n.clients[c].Connected? && n.clients[c].a == x.a && Sent(n.clients[c], x.envelope);
  }

  lemma SafeLeaked(psks: map<Id, Psk>, pair: nat, leaked: set<Psk>, steps: seq<Step>)
    ensures Run(psks, pair, leaked, steps).leaked == leaked
  {
    RunSafe(psks, pair, leaked, steps);
  }

  /** A session whose client has been replaced under the same id survives whatever the old client has sent. */
  lemma StaleHarmless(psks: map<Id, Psk>, pair: nat, leaked: set<Psk>, steps: seq<Step>, c: nat, e: Envelope)
    requires var n := Run(psks, pair, leaked, steps);
      && c < |n.clients| && n.clients[c].Connected? && n.clients[c].a.psk !in leaked && Sent(n.clients[c], e)
      && e.clientId in n.sessions && n.sessions[e.clientId].a != n.clients[c].a
    ensures var n := Run(psks, pair, leaked, steps); Next(n, Teardown(e)) == n && Next(n, Invoke(e)) == n
  {
    hide Run, Proofs, Raw, ProofOf, Matched, CanSend, CanSay;
    RunSafe(psks, pair, leaked, steps);
    var n := Run(psks, pair, leaked, steps);
    if Opens(n.sessions[e.clientId], e) {
      assert false;
    }
  }

  /** The server itself never asks whether a handshake was finished: who has the key may skip that. */
  lemma UnfinishedInvoke(psk: Psk, nonceS: Bytes, sessionId: Bytes)
    requires |nonceS| == NONCE && |sessionId| == SESSION_ID
    ensures exists steps :: var n := Run(map["app" := psk], 0, {psk}, steps); n.confirmed == {} && |n.executed| == 1
  {
    hide Run, Next, KeyOf, Made;
    var psks := map["app" := psk];
    var begin := Begin("app", [], [], nonceS, sessionId);
    RunNothing(psks, 0, {psk});
    RunLast(psks, 0, {psk}, [], begin);
    var n0, n1 := Start(psks, 0, {psk}), Run(psks, 0, {psk}, [] + [begin]);
    Begun(n0, begin);
    var e := Envelope("app", KeyOf(n1.sessions["app"].a, true), sessionId, 0, "capability");
    RunLast(psks, 0, {psk}, [] + [begin], Invoke(e));
    Executes(n1, e);
    assert Run(psks, 0, {psk}, [] + [begin] + [Invoke(e)]).confirmed == {};
  }

  lemma Begun(n: Net, step: Step)
    requires step.Begin? && step.id in n.psks && |step.nonceS| == NONCE && |step.sessionId| == SESSION_ID && step.nonceS !in n.noncesS
    ensures var n' := Next(n, step);
      && step.id in n'.sessions && n'.sessions[step.id].expected == 0 && n'.sessions[step.id].a.transcript.sessionId == step.sessionId
      && n'.sessions[step.id].a.psk == n.psks[step.id] && n'.confirmed == n.confirmed && n'.executed == n.executed && n'.leaked == n.leaked
  {
  }

  lemma Executes(n: Net, e: Envelope)
    requires e.clientId in n.sessions && Opens(n.sessions[e.clientId], e) && n.sessions[e.clientId].a.psk in n.leaked
    ensures Next(n, Invoke(e)).confirmed == n.confirmed && Next(n, Invoke(e)).executed == n.executed + [e]
  {
    hide Raw;
  }
}

/** The two ends of a session as objects: sequenced channels, the service that a worker or the
    broker hosts, and the client. */
module WorkerHost {
  import opened JsMaps
  import opened SecureChannel

  datatype Payload = Args(args: seq<Bytes>) | Result(value: Bytes) | Terminate

  /** A sealed message. */
  datatype Sealed = Sealed(clientId: Id, key: Key, sessionId: Bytes, number: nat, name: string, payload: Payload)

  /** One direction of a session. Messages are numbered, and only the next one opens. */
  class AeadChannel {
    const key: Key
    const sessionId: Bytes
    const clientId: Id
    var number: nat

    constructor (key: Key, sessionId: Bytes, clientId: Id)
      ensures this.key == key && this.sessionId == sessionId && this.clientId == clientId && number == 0
    {
      this.key, this.sessionId, this.clientId, number := key, sessionId, clientId, 0;
    }

    method Encrypt(name: string, payload: Payload) returns (e: Sealed)
      modifies this
      ensures e == Sealed(clientId, key, sessionId, old(number), name, payload) && number == old(number) + 1
    {
      e := Sealed(clientId, key, sessionId, number, name, payload);
      number := number + 1;
    }

    method Decrypt(e: Sealed) returns (p: Option<Payload>)
      modifies this
      ensures p == if e.key == key && e.sessionId == sessionId && e.number == old(number) then Some(e.payload) else None
      ensures number == if p.Some? then old(number) + 1 else old(number)
    {
      if e.key == key && e.sessionId == sessionId && e.number == number {
        number := number + 1;
        return Some(e.payload);
      }
      return None;
    }
  }

  /** What a capability does with its arguments. */
  datatype Outcome = Returns(value: Bytes) | Throws(message: string)

  datatype Response = Response(success: bool, sealed: Option<Sealed>, message: string)

  datatype ServerSession = ServerSession(fromClient: AeadChannel, toClient: AeadChannel, clientProof: Proof, serverProof: Proof)

  /** The registry of a worker: its capabilities with their numbers of parameters, and the permission gate. */
  datatype Ocean = Ocean(ark: map<string, nat>, gate: (Id, string) -> bool)

  /** The gate lets the requester, and the capability is there and takes that many arguments. */
  predicate MayRun(ocean: Ocean, requester: Id, name: string, args: seq<Bytes>) {
    ocean.gate(requester, name) && name in ocean.ark && |args| == ocean.ark[name]
  }

  /** What a caller is told who gets no result. */
  function Refusal(ocean: Ocean, requester: Id, name: string, args: seq<Bytes>, run: seq<Bytes> -> Outcome): string {
    if !ocean.gate(requester, name) then "Permission denied for '" + name + "'."
    else if name !in ocean.ark then "Capability not found in Plagues worker."
    else if |args| != ocean.ark[name] then "Parameter count mismatch."
    else match run(args) case Throws(message) => message case Returns(_) => "Success"
  }

  /** `HandleRequestAsync`. Only a result is encrypted; every refusal and failure goes out as it is. Whom the gate refuses
      learns nothing of what is there. */
  method HandleRequest(ocean: Ocean, name: string, args: seq<Bytes>, toClient: AeadChannel, requester: Id, run: seq<Bytes> -> Outcome)
    returns (r: Response, ran: bool)
    modifies toClient
    ensures ran <==> ocean.gate(requester, name) && name in ocean.ark && |args| == ocean.ark[name]
    ensures !ocean.gate(requester, name) ==> r == Response(false, None, "Permission denied for '" + name + "'.")
    ensures ocean.gate(requester, name) && name !in ocean.ark ==> r == Response(false, None, "Capability not found in Plagues worker.")
    ensures ocean.gate(requester, name) && name in ocean.ark && |args| != ocean.ark[name] ==>
      r == Response(false, None, "Parameter count mismatch.")
    ensures ran && run(args).Throws? ==> r == Response(false, None, run(args).message)
    ensures ran && run(args).Returns? ==>
      && toClient.number == old(toClient.number) + 1
      && r == Response(true, Some(Sealed(toClient.clientId, toClient.key, toClient.sessionId, old(toClient.number),
        name, Result(run(args).value))), "Success")
    ensures !(ran && run(args).Returns?) ==> toClient.number == old(toClient.number) && !r.success && r.sealed == None
  {
    if !ocean.gate(requester, name) { return Response(false, None, "Permission denied for '" + name + "'."), false; }
    if name !in ocean.ark { return Response(false, None, "Capability not found in Plagues worker."), false; }
    if ocean.ark[name] != |args| { return Response(false, None, "Parameter count mismatch."), false; }
    var values := new Bytes[ocean.ark[name]](_ => []);
    var i := 0;
    while i < |args|
      invariant i <= |args| && values[..i] == args[..i] && toClient.number == old(toClient.number)
    {
      values[i] := args[i];
      i := i + 1;
    }
    assert values[..] == args;
    ran := true;
    var result := run(values[..]);
    if result.Throws? { return Response(false, None, result.message), true; }
    var e := toClient.Encrypt(name, Result(result.value));
    r := Response(true, Some(e), "Success");
  }

  /** `PlaguesDiracService`, hosted by a worker. */
  class DiracService {
    const pair: nat
    const resolver: map<Id, Psk>
    const signed: bool
    const ocean: Ocean
    var sessions: map<Id, ServerSession>
    ghost var executed: seq<(Id, string)>

    constructor (pair: nat, resolver: map<Id, Psk>, signed: bool, ocean: Ocean)
      ensures sessions == map[] && executed == []
      ensures this.pair == pair && this.resolver == resolver && this.signed == signed && this.ocean == ocean
    {
      this.pair, this.resolver, this.signed, this.ocean := pair, resolver, signed, ocean;
      sessions, executed := map[], [];
    }

    /** Where the Manager's key is pinned, only its signature lets a caller in. */
    method Enroll(signature: bool) returns (pub: Option<nat>)
      ensures pub == if signed && !signature then None else Some(pair)
    {
      if signed && !signature { return None; }
      return Some(pair);
    }

    function SessionFor(id: Id, cipher: Bytes, nonceC: Bytes, nonceS: Bytes, sessionId: Bytes): Agreement
      requires id in resolver
    {
      Agreement(Transcript(id, cipher, nonceC, nonceS, sessionId, FIRST_EPOCH), resolver[id], Agreed(pair, cipher))
    }

    /** Both directional channels of a fresh session; an older session of the same client is replaced. */
    method BeginHandshake(id: Id, cipher: Bytes, nonceC: Bytes, nonceS: Bytes, sessionId: Bytes) returns (ok: bool)
      modifies this`sessions
      ensures ok <==> id in resolver
      ensures !ok ==> sessions == old(sessions)
      ensures ok ==>
        && id in sessions && sessions == old(sessions)[id := sessions[id]]
        && IsFresh(sessions[id], SessionFor(id, cipher, nonceC, nonceS, sessionId))
        && fresh(sessions[id].fromClient) && fresh(sessions[id].toClient)
    {
      if id !in resolver { return false; }
      var a := SessionFor(id, cipher, nonceC, nonceS, sessionId);
      var fromClient := new AeadChannel(KeyOf(a, true), sessionId, id);
      var toClient := new AeadChannel(KeyOf(a, false), sessionId, id);
      sessions := sessions[id := ServerSession(fromClient, toClient, ProofOf(a, false), ProofOf(a, true))];
      return true;
    }

    method FinishHandshake(id: Id, proof: Proof) returns (answer: Option<Proof>)
      ensures answer == if id in sessions && sessions[id].clientProof == proof then Some(sessions[id].serverProof) else None
    {
      if id !in sessions { return None; }
      if sessions[id].clientProof != proof { return None; }
      return Some(sessions[id].serverProof);
    }

    /** The first half of `InvokeAsync`: find the session and open the envelope. `None` is an exception. */
    method Open(e: Sealed) returns (args: Option<seq<Bytes>>)
      modifies if e.clientId in sessions then {sessions[e.clientId].fromClient} else {}
      ensures e.clientId !in sessions ==> args == None
      ensures e.clientId in sessions ==>
        var c := sessions[e.clientId].fromClient;
        && args == (if old(Authentic(c, e)) && e.payload.Args? then Some(e.payload.args) else None)
        && c.number == old(c.number) + (if old(Authentic(c, e)) then 1 else 0)
    {
      if e.clientId !in sessions { return None; }
      var p := sessions[e.clientId].fromClient.Decrypt(e);
      if p.None? || !p.value.Args? { return None; }
      return Some(p.value.args);
    }

    /** `InvokeAsync` with the local registry behind it; `None` is an exception on the server. */
    method Invoke(e: Sealed, run: seq<Bytes> -> Outcome) returns (r: Option<Response>)
      requires e.clientId in sessions ==> sessions[e.clientId].fromClient != sessions[e.clientId].toClient
      modifies this`executed
      modifies if e.clientId in sessions then {sessions[e.clientId].fromClient, sessions[e.clientId].toClient} else {}
      ensures e.clientId !in sessions ==> r == None && executed == old(executed)
      ensures e.clientId in sessions ==>
        var (s, id) := (sessions[e.clientId], e.clientId);
        if !old(Authentic(s.fromClient, e)) then
          r == None && s.fromClient.number == old(s.fromClient.number) && s.toClient.number == old(s.toClient.number)
            && executed == old(executed)
        else if !e.payload.Args? then
          r == None && s.fromClient.number == old(s.fromClient.number) + 1 && s.toClient.number == old(s.toClient.number)
            && executed == old(executed)
        else
          && r.Some? && s.fromClient.number == old(s.fromClient.number) + 1
          && executed == old(executed) + (if MayRun(ocean, id, e.name, e.payload.args) then [(id, e.name)] else [])
          && if MayRun(ocean, id, e.name, e.payload.args) && run(e.payload.args).Returns? then
               && s.toClient.number == old(s.toClient.number) + 1
               && r.value == Response(true, Some(Sealed(s.toClient.clientId, s.toClient.key, s.toClient.sessionId,
                    old(s.toClient.number), e.name, Result(run(e.payload.args).value))), "Success")
             else
               && s.toClient.number == old(s.toClient.number)
               && r.value == Response(false, None, Refusal(ocean, id, e.name, e.payload.args, run))
      ensures executed == old(executed) || (executed == old(executed) + [(e.clientId, e.name)] && ocean.gate(e.clientId, e.name))
      ensures r.Some? && !ocean.gate(e.clientId, e.name) ==>
        r == Some(Response(false, None, "Permission denied for '" + e.name + "'."))
    {
      var args := Open(e);
      if args.None? { return None; }
      var response, ran := HandleRequest(ocean, e.name, args.value, sessions[e.clientId].toClient, e.clientId, run);
      if ran { executed := executed + [(e.clientId, e.name)]; }
      r := Some(response);
    }

    /** `FinishAsync`: only who can still send on the session may end it. */
    method Finish(e: Sealed) returns (ok: bool)
      modifies this`sessions
      modifies if e.clientId in sessions then {sessions[e.clientId].fromClient} else {}
      ensures ok <==> e.clientId in old(sessions) && old(Authentic(sessions[e.clientId].fromClient, e))
      ensures sessions == if ok then old(sessions) - {e.clientId} else old(sessions)
      ensures !ok && e.clientId in sessions ==> sessions[e.clientId].fromClient.number == old(sessions[e.clientId].fromClient.number)
    {
      if e.clientId !in sessions { return false; }
      var p := sessions[e.clientId].fromClient.Decrypt(e);
      if p.None? { return false; }
      sessions := sessions - {e.clientId};
      return true;
    }
  }

  ghost predicate Authentic(c: AeadChannel, e: Sealed)
    reads c
  {
    e.key == c.key && e.sessionId == c.sessionId && e.number == c.number
  }

  ghost predicate IsFresh(s: ServerSession, a: Agreement)
    reads s.fromClient, s.toClient
  {
    && s.fromClient != s.toClient && s.fromClient.number == 0 == s.toClient.number
    && s.fromClient.key == KeyOf(a, true) && s.toClient.key == KeyOf(a, false)
    && s.fromClient.sessionId == s.toClient.sessionId == a.transcript.sessionId
    && s.fromClient.clientId == s.toClient.clientId == a.transcript.clientId
    && s.clientProof == ProofOf(a, false) && s.serverProof == ProofOf(a, true)
  }

  // ----- the client -----

  datatype Reply = Value(value: Bytes) | AppError(message: string) | Broken

  /** What one end seals next is what the other opens next. */
  ghost predicate Follows(c: AeadChannel, d: AeadChannel)
    reads c, d
  {
    c.key == d.key && c.sessionId == d.sessionId && c.number == d.number
  }

  /** `EclipseSecureClient`. */
  class SecureClient {
    const identity: Id
    const clientChannel: AeadChannel
    const serverChannel: AeadChannel

    constructor (identity: Id, clientChannel: AeadChannel, serverChannel: AeadChannel)
      ensures this.identity == identity && this.clientChannel == clientChannel && this.serverChannel == serverChannel
    {
      this.identity, this.clientChannel, this.serverChannel := identity, clientChannel, serverChannel;
    }

    /** The four channel objects of a session. */
    ghost function Channels(service: DiracService): set<AeadChannel>
      reads service
    {
      {clientChannel, serverChannel} +
      if identity in service.sessions then {service.sessions[identity].fromClient, service.sessions[identity].toClient} else {}
    }

    /** The channel objects of the two ends are different objects. */
    ghost predicate Apart(service: DiracService)
      reads service
    {
      && clientChannel != serverChannel && clientChannel.clientId == identity
      && (identity in service.sessions ==>
            var s := service.sessions[identity];
            s.fromClient != s.toClient && {clientChannel, serverChannel} !! {s.fromClient, s.toClient})
    }

    /** The next request will open on the server's session, */
    ghost predicate SendsInStep(service: DiracService)
      reads service, Channels(service)
    {
      identity in service.sessions && Follows(clientChannel, service.sessions[identity].fromClient)
    }

    /** and the next reply at the client. */
    ghost predicate RepliesInStep(service: DiracService)
      reads service, Channels(service)
    {
      identity in service.sessions && Follows(service.sessions[identity].toClient, serverChannel)
    }

    /** Both directions are in step: same keys, same numbers at both ends. */
    ghost predicate InStep(service: DiracService)
      reads service, Channels(service)
    {
      Apart(service) && SendsInStep(service) && RepliesInStep(service)
    }

    /** What a call should come to. */
    function Expected(ocean: Ocean, name: string, args: seq<Bytes>, run: seq<Bytes> -> Outcome): (o: Option<Bytes>) {
      if MayRun(ocean, identity, name, args) && run(args).Returns? then Some(run(args).value) else None
    }

    /** `InvokeRawAsync` with every message delivered, from any state of the two ends. A request that does not open runs
        nothing; a refusal is not sealed, so it gets through; a result gets through if the replies are in step. */
    method InvokeRaw(service: DiracService, name: string, args: seq<Bytes>, run: seq<Bytes> -> Outcome) returns (r: Reply)
      requires Apart(service)
      modifies Channels(service), service`executed
      ensures Apart(service) && service.sessions == old(service.sessions)
      ensures old(InStep(service)) ==> InStep(service)
      ensures if !old(SendsInStep(service)) then r == Broken
        else match Expected(service.ocean, name, args, run)
          case Some(value) => r == if old(RepliesInStep(service)) then Value(value) else Broken
          case None => r == AppError("Worker call failed: " + Refusal(service.ocean, identity, name, args, run))
      ensures service.executed == old(service.executed) +
        (if old(SendsInStep(service)) && MayRun(service.ocean, identity, name, args) then [(identity, name)] else [])
    {
      var e := clientChannel.Encrypt(name, Args(args));
      var response := service.Invoke(e, run);
      if response.None? { return Broken; }
      if !response.value.success { return AppError("Worker call failed: " + response.value.message); }
      var p := serverChannel.Decrypt(response.value.sealed.value);
      if p.None? { return Broken; }
      r := Value(p.value.value);
    }

    /** `DisposeAsync`: a teardown that the server refuses is ignored. */
    method Dispose(service: DiracService) returns (ended: bool)
      modifies clientChannel, service`sessions
      modifies if identity in service.sessions then {service.sessions[identity].fromClient} else {}
      requires clientChannel.clientId == identity
      requires identity in service.sessions ==> service.sessions[identity].fromClient != clientChannel
      ensures ended <==> old(SendsInStep(service))
      ensures service.sessions == if ended then old(service.sessions) - {identity} else old(service.sessions)
      ensures !ended && identity in service.sessions ==>
        service.sessions[identity].fromClient.number == old(service.sessions[identity].fromClient.number)
    {
      var e := clientChannel.Encrypt("terminate", Terminate);
      ended := service.Finish(e);
    }
  }

  /** A call, and what the capability will do. */
  datatype Call = Call(name: string, args: seq<Bytes>, run: seq<Bytes> -> Outcome)

  /** The capabilities that a run of calls executes. */
  function Executed(ocean: Ocean, id: Id, calls: seq<Call>): seq<(Id, string)> {
    if calls == [] then []
    else
      var c := calls[|calls| - 1];
      Executed(ocean, id, calls[..|calls| - 1]) + (if MayRun(ocean, id, c.name, c.args) then [(id, c.name)] else [])
  }

  /** Any number of calls, whatever becomes of each, leaves both directions in step; each
      is executed once if it may be, and answered by its own result. */
  method Calls(client: SecureClient, service: DiracService, calls: seq<Call>) returns (replies: seq<Reply>)
    requires client.InStep(service)
    modifies client.Channels(service), service`executed
    ensures client.InStep(service) && service.sessions == old(service.sessions) && |replies| == |calls|
    ensures forall i :: 0 <= i < |calls| ==>
      match client.Expected(service.ocean, calls[i].name, calls[i].args, calls[i].run)
      case Some(value) => replies[i] == Value(value)
      case None => replies[i] == AppError("Worker call failed: " +
        Refusal(service.ocean, client.identity, calls[i].name, calls[i].args, calls[i].run))
    ensures service.executed == old(service.executed) + Executed(service.ocean, client.identity, calls)
    ensures forall i :: |old(service.executed)| <= i < |service.executed| ==>
      service.executed[i].0 == client.identity && service.ocean.gate(client.identity, service.executed[i].1)
  {
    replies := [];
    var i := 0;
    while i < |calls|
      invariant i <= |calls| && client.InStep(service) && service.sessions == old(service.sessions) && |replies| == i
      invariant forall j :: 0 <= j < i ==>
        match client.Expected(service.ocean, calls[j].name, calls[j].args, calls[j].run)
        case Some(value) => replies[j] == Value(value)
        case None => replies[j] == AppError("Worker call failed: " +
          Refusal(service.ocean, client.identity, calls[j].name, calls[j].args, calls[j].run))
      invariant service.executed == old(service.executed) + Executed(service.ocean, client.identity, calls[..i])
      invariant forall j :: |old(service.executed)| <= j < |service.executed| ==>
        service.executed[j].0 == client.identity && service.ocean.gate(client.identity, service.executed[j].1)
    {
      var c := calls[i];
      var r := client.InvokeRaw(service, c.name, c.args, c.run);
      assert calls[..i + 1][..i] == calls[..i];
      replies := replies + [r];
      i := i + 1;
    }
    assert calls[..i] == calls;
  }

  /** Both halves of the handshake at the server, for a client that takes the session to be `mine`: it gets the server's
      proof if and only if that is what the server takes it to be, from the identity to the key. */
  method Confirm(service: DiracService, id: Id, cipher: Bytes, nonceC: Bytes, nonceS: Bytes, sessionId: Bytes, mine: Agreement)
    returns (answer: Option<Proof>)
    requires mine.secret.cipher == mine.transcript.cipher
    requires |mine.transcript.sessionId| == |sessionId| && |mine.transcript.epoch| == EPOCH
    modifies service`sessions
    ensures answer.Some? <==> id in service.resolver && mine == service.SessionFor(id, cipher, nonceC, nonceS, sessionId)
    ensures answer.Some? ==> answer.value == ProofOf(mine, true) && answer.value.fromServer && !answer.value.key.toServer
  {
    hide Raw;
    var ok := service.BeginHandshake(id, cipher, nonceC, nonceS, sessionId);
    if !ok { return None; }
    answer := service.FinishHandshake(id, ProofOf(mine, false));
    if answer.Some? {
      SameParts(mine.transcript, service.SessionFor(id, cipher, nonceC, nonceS, sessionId).transcript);
    }
  }

  /** `ConnectAsync` over a network that delivers everything: it succeeds exactly for a caller that the service lets in
      and that holds the key resolved for its identity. Even a failed attempt replaces an older session. */
  method Connect(service: DiracService, signature: bool, psk: Psk, identity: Id, cipher: Bytes, nonceC: Bytes,
                 nonceS: Bytes, sessionId: Bytes)
    returns (client: SecureClient?)
    modifies service`sessions
    ensures client != null <==> (service.signed ==> signature) && identity in service.resolver && service.resolver[identity] == psk
    ensures client != null ==> fresh(client) && client.identity == identity && client.InStep(service) && fresh(client.Channels(service))
    ensures client != null ==>
      var a := Agreement(Transcript(identity, cipher, nonceC, nonceS, sessionId, FIRST_EPOCH), psk, Agreed(service.pair, cipher));
      && client.clientChannel.key == KeyOf(a, true) && client.serverChannel.key == KeyOf(a, false)
      && client.clientChannel.sessionId == client.serverChannel.sessionId == sessionId
      && client.clientChannel.number == 0 == client.serverChannel.number
    ensures service.sessions == old(service.sessions) ||
      (identity in service.sessions && service.sessions == old(service.sessions)[identity := service.sessions[identity]]
        && fresh(service.sessions[identity].fromClient) && fresh(service.sessions[identity].toClient)
        && service.sessions[identity].fromClient != service.sessions[identity].toClient)
    ensures (service.signed ==> signature) && identity in service.resolver ==>
      identity in service.sessions && fresh(service.sessions[identity].fromClient)
  {
    var pub := service.Enroll(signature);
    if pub.None? { return null; }
    var ok := service.BeginHandshake(identity, cipher, nonceC, nonceS, sessionId);
    if !ok { return null; }
    var a := Agreement(Transcript(identity, cipher, nonceC, nonceS, sessionId, FIRST_EPOCH), psk, Agreed(pub.value, cipher));
    var answer := service.FinishHandshake(identity, ProofOf(a, false));
    if answer.None? || answer.value != ProofOf(a, true) { return null; }
    var clientChannel := new AeadChannel(KeyOf(a, true), sessionId, identity);
    var serverChannel := new AeadChannel(KeyOf(a, false), sessionId, identity);
    client := new SecureClient(identity, clientChannel, serverChannel);
  }
}

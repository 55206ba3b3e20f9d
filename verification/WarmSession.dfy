/** One entry of the session pool as an object: its client and the address noted for it, and what a call makes of them,
    one call at a time and over a network that delivers everything. */
module WarmSession {
  import opened JsMaps
  import opened SecureChannel
  import opened WorkerHost

  /** What a handshake draws at random: the identity of the session, the cipher text, both nonces, and the session id. */
  datatype Draw = Draw(identity: Id, cipher: Bytes, nonceC: Bytes, nonceS: Bytes, sessionId: Bytes)

  /** What the pool has of a registered worker: the announced address, the key, and the Manager's signature. */
  datatype Worker = Worker(address: nat, psk: Psk, signature: bool)

  /** The service lets the worker's caller in under this identity. */
  predicate Admits(service: DiracService, worker: Worker, identity: Id) {
    (service.signed ==> worker.signature) && identity in service.resolver && service.resolver[identity] == worker.psk
  }

  /** The client's keys and its session are those of this draw. */
  ghost predicate DrawnBy(client: SecureClient, service: DiracService, worker: Worker, draw: Draw) {
    var t := Transcript(draw.identity, draw.cipher, draw.nonceC, draw.nonceS, draw.sessionId, FIRST_EPOCH);
    var a := Agreement(t, worker.psk, Agreed(service.pair, draw.cipher));
    && client.clientChannel.key == KeyOf(a, true) && client.serverChannel.key == KeyOf(a, false)
    && client.clientChannel.sessionId == client.serverChannel.sessionId == draw.sessionId
  }

  /** `Entry` of the pool. */
  class WarmEntry {
    var client: SecureClient?
    var address: Option<nat>

    constructor ()
      ensures client == null && address == None
    {
      client, address := null, None;
    }

    /** The client's channels are its own. */
    ghost predicate Valid(service: DiracService)
      reads this, service
    {
      client != null ==> client.Apart(service)
    }

    /** All channel objects that a call may move. */
    ghost function Channels(service: DiracService): set<AeadChannel>
      reads this, service
    {
      if client == null then {} else client.Channels(service)
    }

    /** The warm session is good for the next call. */
    ghost predicate Warm(service: DiracService)
      reads this, service, Channels(service)
    {
      client != null && client.InStep(service)
    }

    /** The one state in which an attempt runs the capability and yet is lost: requests open at the server, replies do not
        open at the client. */
    ghost predicate Lopsided(service: DiracService, worker: Worker)
      reads this, service, Channels(service)
    {
      client != null && address == Some(worker.address) && client.SendsInStep(service) && !client.RepliesInStep(service)
    }

    /** There is no client yet, or the worker listens elsewhere by now. */
    predicate Cold(worker: Worker)
      reads this
    {
      client == null || address != Some(worker.address)
    }

    /** The next attempt on the session is going to be lost: the request, or the reply to it if there is a result. */
    ghost predicate Lost(service: DiracService, worker: Worker, name: string, args: seq<Bytes>, run: seq<Bytes> -> Outcome)
      reads this, service, Channels(service)
    {
      && client != null && address == Some(worker.address)
      && (client.SendsInStep(service) ==> client.Expected(service.ocean, name, args, run).Some? && !client.RepliesInStep(service))
    }

    /** `Reconnect`, to the service that now listens at the announced address; an old client is closed, and its teardown gets
        there if that is where it was connected. A failure leaves the closed client in place. */
    method Reconnect(service: DiracService, worker: Worker, draw: Draw) returns (ok: bool)
      requires Valid(service)
      modifies this, service`sessions, Channels(service)
      ensures Valid(service)
      ensures ok <==> Admits(service, worker, draw.identity)
      ensures ok ==> Warm(service) && fresh(client) && fresh(Channels(service))
      ensures ok ==> client.identity == draw.identity && address == Some(worker.address) && DrawnBy(client, service, worker, draw)
      ensures service.sessions - {draw.identity} == old(service.sessions) - {draw.identity}
        - if old(client != null && address == Some(worker.address) && client.SendsInStep(service)) then {old(client).identity} else {}
      ensures !ok ==> client == old(client) && address == old(address)
    {
      hide KeyOf, ProofOf, Raw;
      if client != null && address == Some(worker.address) {
        var ended := client.Dispose(service);
      }
      assert service.sessions == old(service.sessions)
        - if old(client != null && address == Some(worker.address) && client.SendsInStep(service)) then {old(client).identity} else {};
      assert client != null ==> client.Apart(service);
      ghost var sessions := service.sessions;
      var connected := Connect(service, worker.signature, worker.psk, draw.identity, draw.cipher, draw.nonceC, draw.nonceS, draw.sessionId);
      assert service.sessions - {draw.identity} == sessions - {draw.identity};
      if connected == null {
        if client != null && client.identity in service.sessions {
          var s := service.sessions[client.identity];
          assert service.sessions != sessions && client.identity == draw.identity ==> s.fromClient != s.toClient;
          assert {client.clientChannel, client.serverChannel} !! {s.fromClient, s.toClient};
        }
        return false;
      }
      client, address := connected, Some(worker.address);
      return true;
    }

    /** `InvokeAsync` of the pool, once the gate is passed; `Broken` is an exception of the last connection or attempt. From
        whatever state the entry is in, a worker that lets the pool in answers, and after a value the warm session is in step.
        Unless the session was lopsided, it is in step after a refusal, too, and the capability runs exactly once, if it may. */
    method Invoke(service: DiracService, worker: Worker, name: string, args: seq<Bytes>, run: seq<Bytes> -> Outcome,
                  first: Draw, second: Draw)
      returns (r: Reply)
      requires Valid(service)
      modifies this, service`sessions, service`executed, Channels(service)
      ensures Valid(service)
      ensures Admits(service, worker, first.identity) && Admits(service, worker, second.identity) ==>
        && client != null && address == Some(worker.address)
        && (match client.Expected(service.ocean, name, args, run)
            case Some(value) => r == Value(value) && Warm(service)
            case None => r == AppError("Worker call failed: " + Refusal(service.ocean, client.identity, name, args, run)))
      ensures Admits(service, worker, first.identity) && Admits(service, worker, second.identity) && !old(Lopsided(service, worker)) ==>
        Warm(service) && service.executed == old(service.executed) +
          (if MayRun(service.ocean, client.identity, name, args) then [(client.identity, name)] else [])
      ensures !old(Cold(worker)) && !old(Lost(service, worker, name, args, run)) ==> client == old(client)
      ensures old(Cold(worker)) ==>
        if Admits(service, worker, first.identity) then client != null && fresh(client) && DrawnBy(client, service, worker, first)
        else r == Broken && client == old(client)
      ensures old(Lost(service, worker, name, args, run)) ==>
        if Admits(service, worker, second.identity) then client != null && fresh(client) && DrawnBy(client, service, worker, second)
        else r == Broken && client == old(client)
      ensures r.Value? ==> client != null && client.Expected(service.ocean, name, args, run) == Some(r.value)
    {
      if client == null || address != Some(worker.address) {
        var ok := Reconnect(service, worker, first);
        if !ok { return Broken; }
      }
      r := client.InvokeRaw(service, name, args, run);
      if r.Broken? {
        var ok := Reconnect(service, worker, second);
        if !ok { return Broken; }
        r := client.InvokeRaw(service, name, args, run);
      }
    }
  }
}

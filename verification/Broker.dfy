/** The broker between applications and workers: from the sealed request of an application to the
    worker and back, first for one call, then for any number of calls at the same time. */
module Broker {
  import opened JsMaps
  import opened SecureChannel
  import opened WorkerHost
  import opened WarmSession

  /** A registered worker: what it offers, the pool's entry for it, the service that listens at its announced address, and
      what the Manager has of it. */
  datatype Registered = Registered(capabilities: set<string>, entry: WarmEntry, service: DiracService, worker: Worker)

  /** What is to be known of a worker before a call: its client, whether that has to be connected first, whether the first attempt is
      going to be lost, whether that one may run, and what has been executed. */
  datatype Before = Before(client: SecureClient?, cold: bool, lost: bool, lopsided: bool, executed: seq<(Id, string)>)

  ghost function Found(w: Registered, name: string, args: seq<Bytes>, run: seq<Bytes> -> Outcome): Before
    reads w.entry, w.service, w.entry.Channels(w.service)
  {
    Before(w.entry.client, w.entry.Cold(w.worker), w.entry.Lost(w.service, w.worker, name, args, run),
      w.entry.Lopsided(w.service, w.worker), w.service.executed)
  }

  /** A client that is good stays; else the first draw makes the connection before the first attempt, and the second the one
      before the second. The worker has run the capability once since then, if it may, unless the session was lopsided. */
  ghost predicate Served(w: Registered, before: Before, name: string, args: seq<Bytes>, first: Draw, second: Draw)
    reads w.entry, w.service
  {
    var (one, two) := (Admits(w.service, w.worker, first.identity), Admits(w.service, w.worker, second.identity));
    && (!before.cold && !before.lost ==> w.entry.client == before.client)
    && (before.cold && one ==> w.entry.client != null && DrawnBy(w.entry.client, w.service, w.worker, first))
    && (before.lost && two ==> w.entry.client != null && DrawnBy(w.entry.client, w.service, w.worker, second))
    && (one && two && !before.lopsided ==>
          && w.entry.client != null
          && w.service.executed == before.executed +
               (if MayRun(w.service.ocean, w.entry.client.identity, name, args) then [(w.entry.client.identity, name)] else []))
  }

  /** The first worker that offers a capability, or the number of workers. */
  function FirstWith(workers: seq<Registered>, name: string): (i: nat)
    ensures i <= |workers|
    ensures i < |workers| ==> name in workers[i].capabilities
    ensures forall j :: 0 <= j < i ==> name !in workers[j].capabilities
  {
    if workers == [] then 0 else if name in workers[0].capabilities then 0 else 1 + FirstWith(workers[1..], name)
  }

  /** The Manager's endpoint, and the workers it knows. */
  class BrokerRouter {
    const front: DiracService
    const workers: seq<Registered>

    constructor (front: DiracService, workers: seq<Registered>)
      ensures this.front == front && this.workers == workers
    {
      this.front, this.workers := front, workers;
    }

    /** What a call for this capability may touch behind the broker. */
    ghost function Behind(name: string): set<object>
      reads set w | w in workers :: w.service, set w | w in workers :: w.entry
    {
      var i := FirstWith(workers, name);
      if i < |workers| then workers[i].entry.Channels(workers[i].service) + {workers[i].entry, workers[i].service} else {}
    }

    /** The entry of the worker that would be asked, in whatever state. */
    ghost predicate Ready(name: string)
      reads set w | w in workers :: w.service, set w | w in workers :: w.entry
    {
      var i := FirstWith(workers, name);
      i < |workers| ==> workers[i].entry.Valid(workers[i].service)
    }

    /** The worker that would be asked lets the Manager in. */
    predicate Open(name: string, first: Draw, second: Draw) {
      var i := FirstWith(workers, name);
      i < |workers| && Admits(workers[i].service, workers[i].worker, first.identity)
        && Admits(workers[i].service, workers[i].worker, second.identity)
    }

    /** What the worker answers on the session that is warm now. */
    ghost function Result(name: string, args: seq<Bytes>, run: seq<Bytes> -> Outcome): Option<Bytes>
      reads set w | w in workers :: w.entry
    {
      var i := FirstWith(workers, name);
      if i < |workers| && workers[i].entry.client != null
      then workers[i].entry.client.Expected(workers[i].service.ocean, name, args, run) else None
    }

    /** `RouteAsync`; `granted` is the answer of the permission check, `None` an exception. */
    method Route(name: string, args: seq<Bytes>, toApp: AeadChannel, appId: Id, granted: bool, run: seq<Bytes> -> Outcome,
                 first: Draw, second: Draw)
      returns (r: Option<Response>)
      requires Ready(name) && toApp !in Behind(name)
      modifies toApp, if granted then Behind(name) else {}
      ensures Ready(name)
      ensures r.Some? && r.value.success ==>
        && granted && Result(name, args, run).Some? && toApp.number == old(toApp.number) + 1
        && r == Some(Response(true, Some(Sealed(toApp.clientId, toApp.key, toApp.sessionId, old(toApp.number), name,
             Payload.Result(Result(name, args, run).value))), "Success"))
      ensures !(r.Some? && r.value.success) ==> toApp.number == old(toApp.number)
      ensures !granted ==> r == Some(Response(false, None, "XRUIOS.Permission denied '" + name + "' for " + appId + "."))
      ensures granted && (forall i :: 0 <= i < |workers| ==> name !in workers[i].capabilities) ==>
        r == Some(Response(false, None, "No worker exposes '" + name + "'."))
      ensures granted && Open(name, first, second) ==>
        if Result(name, args, run).Some? then r.Some? && r.value.success else r == None
      ensures var i := FirstWith(workers, name);
        granted && i < |workers| ==> Served(workers[i], old(Found(workers[i], name, args, run)), name, args, first, second)
    {
      if !granted { return Some(Response(false, None, "XRUIOS.Permission denied '" + name + "' for " + appId + ".")); }
      var i := FirstWith(workers, name);
      if i == |workers| { return Some(Response(false, None, "No worker exposes '" + name + "'.")); }
      var w := workers[i];
      var reply := w.entry.Invoke(w.service, w.worker, name, args, run, first, second);
      if !reply.Value? { return None; }
      var e := toApp.Encrypt(name, Payload.Result(reply.value));
      r := Some(Response(true, Some(e), "Success"));
    }

    /** `InvokeAsync` of the Manager's endpoint, which routes what it opens. */
    method Invoke(e: Sealed, granted: bool, run: seq<Bytes> -> Outcome, first: Draw, second: Draw) returns (r: Option<Response>)
      requires Ready(e.name) && front !in Behind(e.name)
      requires e.clientId in front.sessions ==>
        var s := front.sessions[e.clientId]; s.fromClient != s.toClient && {s.fromClient, s.toClient} !! Behind(e.name)
      modifies if e.clientId in front.sessions then {front.sessions[e.clientId].fromClient, front.sessions[e.clientId].toClient} else {}
      modifies if granted then Behind(e.name) else {}
      ensures Ready(e.name)
      ensures e.clientId !in front.sessions ==> r == None
      ensures e.clientId in front.sessions ==>
        var (c, d) := (front.sessions[e.clientId].fromClient, front.sessions[e.clientId].toClient);
        && c.number == old(c.number) + (if old(Authentic(c, e)) then 1 else 0)
        && (if r.Some? && r.value.success then
              && granted && old(Authentic(c, e)) && e.payload.Args? && Result(e.name, e.payload.args, run).Some?
              && d.number == old(d.number) + 1
              && r == Some(Response(true, Some(Sealed(d.clientId, d.key, d.sessionId, old(d.number), e.name,
                   Payload.Result(Result(e.name, e.payload.args, run).value))), "Success"))
            else d.number == old(d.number))
        && (old(Authentic(c, e)) && e.payload.Args? ==>
              && (!granted ==> r == Some(Response(false, None, "XRUIOS.Permission denied '" + e.name + "' for " + e.clientId + ".")))
              && (granted && (forall i :: 0 <= i < |workers| ==> e.name !in workers[i].capabilities) ==>
                    r == Some(Response(false, None, "No worker exposes '" + e.name + "'.")))
              && (granted && Open(e.name, first, second) ==>
                    if Result(e.name, e.payload.args, run).Some? then r.Some? && r.value.success else r == None))
      ensures e.clientId in front.sessions && old(Authentic(front.sessions[e.clientId].fromClient, e)) && e.payload.Args? ==>
        var i := FirstWith(workers, e.name);
        granted && i < |workers| ==>
          Served(workers[i], old(Found(workers[i], e.name, e.payload.args, run)), e.name, e.payload.args, first, second)
    {
      var args := front.Open(e);
      if args.None? { return None; }
      r := Route(e.name, args.value, front.sessions[e.clientId].toClient, e.clientId, granted, run, first, second);
    }
  }

  /** `UnpackResponse` of the application: only a success is decrypted. */
  method UnpackResponse(c: AeadChannel, r: Response) returns (reply: Reply)
    requires r.success ==> r.sealed.Some? && r.sealed.value.payload.Result?
    modifies c
    ensures reply == if !r.success then AppError(r.message)
      else if old(Authentic(c, r.sealed.value)) then Value(r.sealed.value.payload.value) else Broken
    ensures c.number == old(c.number) + if reply.Value? then 1 else 0
  {
    if !r.success { return AppError(r.message); }
    var p := c.Decrypt(r.sealed.value);
    if p.None? { return Broken; }
    reply := Value(p.value.value);
  }

  /** One call of an application, end to end, whatever the state of the session behind the broker. What it decrypts are
      the very bytes that the worker encrypted, and it gets them whenever there are any and the worker lets the Manager in;
      a refused call leaves every worker and every warm session as it was; the application's hop stays in step. */
  method AppCall(app: SecureClient, router: BrokerRouter, name: string, args: seq<Bytes>, granted: bool, run: seq<Bytes> -> Outcome,
                 first: Draw, second: Draw)
    returns (reply: Reply)
    requires app.InStep(router.front) && router.Ready(name)
    requires app.Channels(router.front) !! router.Behind(name) && router.front !in router.Behind(name)
    modifies app.Channels(router.front), if granted then router.Behind(name) else {}
    ensures app.InStep(router.front) && router.Ready(name)
    ensures !granted ==> reply == AppError("XRUIOS.Permission denied '" + name + "' for " + app.identity + ".")
    ensures granted && (forall i :: 0 <= i < |router.workers| ==> name !in router.workers[i].capabilities) ==>
      reply == AppError("No worker exposes '" + name + "'.")
    ensures reply.Value? ==> granted && router.Result(name, args, run) == Some(reply.value)
    ensures granted && router.Open(name, first, second) ==> if router.Result(name, args, run).Some? then reply.Value? else reply == Broken
    ensures var (i, workers) := (FirstWith(router.workers, name), router.workers);
      granted && i < |workers| ==> Served(workers[i], old(Found(workers[i], name, args, run)), name, args, first, second)
  {
    var e := app.clientChannel.Encrypt(name, Args(args));
    var response := router.Invoke(e, granted, run, first, second);
    if response.None? { return Broken; }
    reply := UnpackResponse(app.serverChannel, response.value);
  }
}

/** Any number of application requests at the same time: messages, checks, routing and pooled calls interleave freely. */
module BrokerRuns {
  import opened JsMaps
  import opened Lanes
  import SessionPool

  type Pool = SessionPool.Pool

  /** Where a request stands. `c` is its pooled call; a reply carries the value that the call returned, and its own number. */
  datatype Stage =
    | Sent
    | Unopened
    | Received
    | Denied
    | Granted
    | NoWorker
    | Pooled(c: nat)
    | Failed(c: nat)
    | Replying(c: nat, value: nat, reply: nat)
    | Done(c: nat, value: nat, reply: nat)
    | Lost(c: nat, value: nat, reply: nat)

  /** `number` was given when the application sealed the request. */
  datatype Request = Request(app: string, capability: string, number: nat, stage: Stage)

  /** The answer of the permission service to one request. */
  datatype Check = Check(request: nat, app: string, capability: string, granted: bool)

  /** A registered worker and what it offers. */
  datatype Worker = Worker(name: SessionPool.Name, record: SessionPool.Record, capabilities: set<string>)

  /** A worker ran a capability for a pooled call. */
  datatype Execution = Execution(c: nat, capability: string)

  /** `calls` has the capability that each pooled call asks for; `checks` and `executed` remember what has happened. An application
      has one session with the Manager, whose two directions are `up` and `down`. */
  datatype Broker = Broker(pool: Pool, calls: seq<string>, requests: seq<Request>, up: map<string, Lane>, down: map<string, Lane>,
                           checks: seq<Check>, executed: seq<Execution>)

  datatype Step =
    | Call(app: string, capability: string)
    | Open(r: nat)
    | Permit(r: nat, granted: bool)
    | Route(r: nat, registry: seq<Worker>)
    | InPool(step: SessionPool.Step)
    | Reply(r: nat)
    | Deliver(r: nat)

  const EMPTY := Broker(SessionPool.EMPTY, [], [], map[], map[], [], [])

  function LaneOf(lanes: map<string, Lane>, app: string): Lane { if app in lanes then lanes[app] else IDLE }

  ghost predicate IsFirst(registry: seq<Worker>, capability: string, i: nat)
    requires i < |registry|
  {
    capability in registry[i].capabilities && forall j :: 0 <= j < i ==> capability !in registry[j].capabilities
  }

  /** The first worker that offers a capability. */
  function FirstOffer(registry: seq<Worker>, capability: string): (w: Option<Worker>)
    ensures w.Some? ==> exists i :: 0 <= i < |registry| && registry[i] == w.value && IsFirst(registry, capability, i)
    ensures w.None? ==> forall i :: 0 <= i < |registry| ==> capability !in registry[i].capabilities
  {
    if registry == [] then None
    else if capability in registry[0].capabilities then Some(registry[0])
    else FirstOffer(registry[1..], capability)
  }

  function At(b: Broker, r: nat, stage: Stage): Broker
    requires r < |b.requests|
  {
    b.(requests := b.requests[r := b.requests[r].(stage := stage)])
  }

  function Runs(p: Pool, c: nat): nat { if c < |p.callers| && SessionPool.Logs(p.callers[c]) then p.callers[c].runs else 0 }

  /** What a step of the pool makes a worker run. */
  function Executes(b: Broker, s: SessionPool.Step): seq<Execution> {
    if (s.RunCapability? || s.RunLate?) && s.c < |b.calls| && Runs(SessionPool.Next(b.pool, s), s.c) > Runs(b.pool, s.c)
    then [Execution(s.c, b.calls[s.c])] else []
  }

  function Next(b: Broker, step: Step): Broker {
    match step
    case Call(app, capability) =>
      var lane := LaneOf(b.up, app);
      b.(requests := b.requests + [Request(app, capability, lane.sealed, Sent)], up := b.up[app := Seal(lane)])
    // The request reaches the broker, in whatever order.
    case Open(r) =>
      if r >= |b.requests| || !b.requests[r].stage.Sent? then b
      else
        var (app, n) := (b.requests[r].app, b.requests[r].number);
        var lane := LaneOf(b.up, app);
        At(b, r, if Opens(lane, n) then Received else Unopened).(up := b.up[app := Lanes.Arrive(lane, n)])
    case Permit(r, granted) =>
      if r >= |b.requests| || !b.requests[r].stage.Received? then b
      else At(b, r, if granted then Granted else Denied).(
        checks := b.checks + [Check(r, b.requests[r].app, b.requests[r].capability, granted)])
    case Route(r, registry) =>
      if r >= |b.requests| || !b.requests[r].stage.Granted? then b
      else
        var w := FirstOffer(registry, b.requests[r].capability);
        if w.None? then At(b, r, NoWorker)
        else At(b, r, Pooled(|b.pool.callers|)).(
          pool := SessionPool.Next(b.pool, SessionPool.Step.Arrive(w.value.name, w.value.record)),
            calls := b.calls + [b.requests[r].capability])
    case InPool(s) =>
      if s.Arrive? then b
      else b.(pool := SessionPool.Next(b.pool, s), executed := b.executed + Executes(b, s))
    // The result is sealed again for the application.
    case Reply(r) =>
      if !Waits(b, r) then b
      else
        var (app, c) := (b.requests[r].app, b.requests[r].stage.c);
        var lane := LaneOf(b.down, app);
        var outcome := b.pool.callers[c].outcome;
        if outcome.Failed? then At(b, r, Failed(c))
        else At(b, r, Replying(c, outcome.value, lane.sealed)).(down := b.down[app := Seal(lane)])
    // The reply reaches the application, in whatever order.
    case Deliver(r) =>
      if r >= |b.requests| || !b.requests[r].stage.Replying? then b
      else
        var (app, stage) := (b.requests[r].app, b.requests[r].stage);
        var lane := LaneOf(b.down, app);
        At(b, r, if Opens(lane, stage.reply) then Done(stage.c, stage.value, stage.reply) else Lost(stage.c, stage.value, stage.reply)).(
          down := b.down[app := Lanes.Arrive(lane, stage.reply)])
  }

  /** The pooled call of the request is over. */
  predicate Waits(b: Broker, r: nat) {
    r < |b.requests| && b.requests[r].stage.Pooled? && b.requests[r].stage.c < |b.pool.callers|
      && b.pool.callers[b.requests[r].stage.c].Finished?
  }

  function Run(steps: seq<Step>): Broker {
    if steps == [] then EMPTY else Next(Run(steps[..|steps| - 1]), steps[|steps| - 1])
  }

  // ----- what every run keeps -----

  function CallOf(stage: Stage): Option<nat> {
    if stage.Pooled? || stage.Failed? || stage.Replying? || stage.Done? || stage.Lost? then Some(stage.c) else None
  }

  predicate HasReply(stage: Stage) { stage.Replying? || stage.Done? || stage.Lost? }

  /** The request has got as far as its number allows. */
  ghost predicate UpOk(up: map<string, Lane>, q: Request) {
    var lane := LaneOf(up, q.app);
    && q.number < lane.sealed
    && (q.stage.Sent? <==> q.number !in lane.arrived)
    && (q.stage.Unopened? ==> q.number >= lane.next)
    && (!q.stage.Sent? && !q.stage.Unopened? ==> q.number < lane.next)
  }

  /** And so has its reply. */
  ghost predicate DownOk(down: map<string, Lane>, q: Request) {
    HasReply(q.stage) ==>
      var lane := LaneOf(down, q.app);
      && q.stage.reply < lane.sealed
      && (q.stage.Replying? <==> q.stage.reply !in lane.arrived)
      && (q.stage.Lost? ==> q.stage.reply >= lane.next)
      && (q.stage.Done? ==> q.stage.reply < lane.next)
  }

  /** The reply carries what the pooled call has returned. */
  ghost predicate CallOk(p: Pool, calls: seq<string>, q: Request) {
    CallOf(q.stage).Some? ==>
      var c := q.stage.c;
      && c < |p.callers| == |calls| && calls[c] == q.capability
      && (HasReply(q.stage) ==> p.callers[c].Finished? && p.callers[c].outcome == SessionPool.Returned(q.stage.value))
      && (q.stage.Failed? ==> p.callers[c].Finished? && p.callers[c].outcome == SessionPool.Failed)
  }

  /** Numbers and pooled calls belong to one request each. */
  ghost predicate Apart(q: Request, q': Request) {
    && (q.app == q'.app ==> q.number != q'.number)
    && (q.app == q'.app && HasReply(q.stage) && HasReply(q'.stage) ==> q.stage.reply != q'.stage.reply)
    && (CallOf(q.stage).Some? ==> CallOf(q.stage) != CallOf(q'.stage))
  }

  /** A request is checked once, and stays what the check has made of it. */
  ghost predicate Remembered(requests: seq<Request>, x: Check) {
    && x.request < |requests| && requests[x.request].app == x.app && requests[x.request].capability == x.capability
    && var stage := requests[x.request].stage;
       !stage.Sent? && !stage.Unopened? && !stage.Received? && (x.granted <==> !stage.Denied?)
  }

  ghost predicate Passed(b: Broker, r: nat)
    requires r < |b.requests|
  {
    var q := b.requests[r];
    q.stage.Granted? || CallOf(q.stage).Some? ==> Check(r, q.app, q.capability, true) in b.checks
  }

  ghost predicate Owned(b: Broker, c: nat) {
    exists r :: 0 <= r < |b.requests| && CallOf(b.requests[r].stage) == Some(c)
  }

  /** How often a call has been executed. */
  function Times(executed: seq<Execution>, c: nat): nat {
    if executed == [] then 0 else Times(executed[..|executed| - 1], c) + if executed[|executed| - 1].c == c then 1 else 0
  }

  ghost predicate LanesOk(lanes: map<string, Lane>) {
    forall app :: app in lanes ==> Lanes.Sound(lanes[app])
  }

  ghost predicate RequestsOk(b: Broker) {
    && (forall r :: 0 <= r < |b.requests| ==> UpOk(b.up, b.requests[r]))
    && (forall r :: 0 <= r < |b.requests| ==> DownOk(b.down, b.requests[r]))
    && (forall r :: 0 <= r < |b.requests| ==> CallOk(b.pool, b.calls, b.requests[r]))
  }

  ghost predicate ChecksOk(b: Broker) {
    && (forall r :: 0 <= r < |b.requests| ==> Passed(b, r))
    && (forall x :: x in b.checks ==> Remembered(b.requests, x))
  }

  ghost predicate CallsOk(b: Broker) {
    && |b.calls| == |b.pool.callers|
    && (forall c :: 0 <= c < |b.calls| ==> Owned(b, c) && Times(b.executed, c) == Runs(b.pool, c))
    && (forall i :: 0 <= i < |b.executed| ==> b.executed[i].c < |b.calls| && b.executed[i].capability == b.calls[b.executed[i].c])
  }

  ghost predicate AllApart(requests: seq<Request>) {
    forall q, r :: 0 <= q < r < |requests| ==> Apart(requests[q], requests[r])
  }

  ghost predicate Sound(b: Broker) {
    LanesOk(b.up) && LanesOk(b.down) && RequestsOk(b) && AllApart(b.requests) && ChecksOk(b) && CallsOk(b)
  }

  // ----- the pool underneath -----

  lemma Callers(p: Pool, s: SessionPool.Step)
    ensures |SessionPool.Next(p, s).callers| == |p.callers| + if s.Arrive? then 1 else 0
  {
  }

  /** A call that is over stays over, with its outcome. */
  lemma OverStays(p: Pool, s: SessionPool.Step, c: nat)
    requires c < |p.callers| && p.callers[c].Finished?
    ensures var p' := SessionPool.Next(p, s);
      c < |p'.callers| && p'.callers[c].Finished? && p'.callers[c].outcome == p.callers[c].outcome
  {
    hide SessionPool.NeedsConnection, SessionPool.Unusable, SessionPool.Reconnect;
  }

  lemma RunsStep(p: Pool, s: SessionPool.Step, c: nat)
    ensures var p' := SessionPool.Next(p, s);
      if (s.RunCapability? || s.RunLate?) && s.c == c then Runs(p, c) <= Runs(p', c) <= Runs(p, c) + 1
      else Runs(p', c) == Runs(p, c)
  {
    hide SessionPool.NeedsConnection, SessionPool.Unusable, SessionPool.Reconnect;
  }

  lemma TimesMore(executed: seq<Execution>, more: seq<Execution>, c: nat)
    requires |more| <= 1
    ensures Times(executed + more, c) == Times(executed, c) + if more != [] && more[0].c == c then 1 else 0
  {
    if more == [] {
      assert executed + more == executed;
    } else {
      assert (executed + more)[..|executed + more| - 1] == executed;
    }
  }

  // ----- the lanes -----

  lemma LaneSound(lanes: map<string, Lane>, app: string)
    requires LanesOk(lanes)
    ensures Lanes.Sound(LaneOf(lanes, app))
  {
    hide Lanes.Sound;
    IdleSound();
  }

  lemma LanesStep(b: Broker, step: Step)
    requires LanesOk(b.up) && LanesOk(b.down) && RequestsOk(b)
    ensures LanesOk(Next(b, step).up) && LanesOk(Next(b, step).down)
  {
    hide Lanes.Sound, SessionPool.Next, CallOk, Lanes.Arrive, Seal;
    match step {
      case Call(app, capability) =>
        LaneSound(b.up, app);
        SealSound(LaneOf(b.up, app));
      case Open(r) =>
        if r < |b.requests| && b.requests[r].stage.Sent? {
          LaneSound(b.up, b.requests[r].app);
          assert UpOk(b.up, b.requests[r]);
          ArriveSound(LaneOf(b.up, b.requests[r].app), b.requests[r].number);
        }
      case Reply(r) =>
        if Waits(b, r) {
          LaneSound(b.down, b.requests[r].app);
          SealSound(LaneOf(b.down, b.requests[r].app));
        }
      case Deliver(r) =>
        if r < |b.requests| && b.requests[r].stage.Replying? {
          LaneSound(b.down, b.requests[r].app);
          assert DownOk(b.down, b.requests[r]);
          ArriveSound(LaneOf(b.down, b.requests[r].app), b.requests[r].stage.reply);
        }
      case _ =>
    }
  }

  lemma UpSeal(up: map<string, Lane>, app: string, q: Request)
    requires UpOk(up, q)
    ensures UpOk(up[app := Seal(LaneOf(up, app))], q)
  {
  }

  lemma DownSeal(down: map<string, Lane>, app: string, q: Request)
    requires DownOk(down, q)
    ensures DownOk(down[app := Seal(LaneOf(down, app))], q)
  {
  }

  lemma UpArrive(up: map<string, Lane>, app: string, n: nat, q: Request)
    requires UpOk(up, q) && (q.app == app ==> q.number != n)
    ensures UpOk(up[app := Lanes.Arrive(LaneOf(up, app), n)], q)
  {
  }

  lemma DownArrive(down: map<string, Lane>, app: string, n: nat, q: Request)
    requires DownOk(down, q) && (q.app == app && HasReply(q.stage) ==> q.stage.reply != n)
    ensures DownOk(down[app := Lanes.Arrive(LaneOf(down, app), n)], q)
  {
  }

  // ----- one step -----

  lemma RequestsCall(b: Broker, app: string, capability: string)
    requires RequestsOk(b) && LanesOk(b.up)
    ensures RequestsOk(Next(b, Call(app, capability)))
  {
    hide UpOk, DownOk, CallOk, SessionPool.Next, LanesOk;
    var b' := Next(b, Call(app, capability));
    LaneSound(b.up, app);
    NewRequest(b, app, capability);
    forall r | 0 <= r < |b'.requests|
      ensures UpOk(b'.up, b'.requests[r]) && DownOk(b'.down, b'.requests[r]) && CallOk(b'.pool, b'.calls, b'.requests[r])
    {
      if r < |b.requests| { UpSeal(b.up, app, b.requests[r]); }
    }
  }

  lemma NewRequest(b: Broker, app: string, capability: string)
    requires Lanes.Sound(LaneOf(b.up, app))
    ensures var q, up := Request(app, capability, LaneOf(b.up, app).sealed, Sent), b.up[app := Seal(LaneOf(b.up, app))];
      UpOk(up, q) && DownOk(b.down, q) && CallOk(b.pool, b.calls, q)
  {
  }

  lemma RequestsOpen(b: Broker, r: nat)
    requires RequestsOk(b) && AllApart(b.requests) && LanesOk(b.up)
    ensures RequestsOk(Next(b, Open(r)))
  {
    hide SessionPool.Next, LanesOk, CallOk, DownOk, UpOk, Apart, Lanes.Arrive;
    var b' := Next(b, Open(r));
    if r < |b.requests| && b.requests[r].stage.Sent? {
      OpenedHere(b, r);
      forall q | 0 <= q < |b'.requests|
        ensures UpOk(b'.up, b'.requests[q]) && DownOk(b'.down, b'.requests[q]) && CallOk(b'.pool, b'.calls, b'.requests[q])
      {
        if q != r {
          ApartNumbers(b.requests, q, r);
          UpArrive(b.up, b.requests[r].app, b.requests[r].number, b.requests[q]);
        }
      }
    }
  }

  lemma OpenedHere(b: Broker, r: nat)
    requires RequestsOk(b) && LanesOk(b.up) && r < |b.requests| && b.requests[r].stage.Sent?
    ensures var b' := Next(b, Open(r));
      UpOk(b'.up, b'.requests[r]) && DownOk(b'.down, b'.requests[r]) && CallOk(b'.pool, b'.calls, b'.requests[r])
  {
    hide SessionPool.Next, LanesOk;
    LaneSound(b.up, b.requests[r].app);
    assert UpOk(b.up, b.requests[r]);
    ArriveSound(LaneOf(b.up, b.requests[r].app), b.requests[r].number);
  }

  lemma ApartNumbers(requests: seq<Request>, q: nat, r: nat)
    requires AllApart(requests) && q < |requests| && r < |requests| && q != r
    ensures requests[q].app == requests[r].app ==> requests[q].number != requests[r].number
    ensures requests[q].app == requests[r].app && HasReply(requests[q].stage) && HasReply(requests[r].stage) ==>
      requests[q].stage.reply != requests[r].stage.reply
    ensures CallOf(requests[q].stage).Some? ==> CallOf(requests[q].stage) != CallOf(requests[r].stage)
  {
    if q < r { assert Apart(requests[q], requests[r]); } else { assert Apart(requests[r], requests[q]); }
  }

  lemma RequestsHere(b: Broker, step: Step)
    requires RequestsOk(b) && CallsOk(b) && (step.Permit? || step.Route?)
    ensures RequestsOk(Next(b, step))
  {
    hide SessionPool.Next, Owned, FirstOffer, Times, Runs;
    var b' := Next(b, step);
    if step.Route? && step.r < |b.requests| {
      var w := FirstOffer(step.registry, b.requests[step.r].capability);
      if w.Some? { CallsArrive(b, w.value); }
    }
    forall q | 0 <= q < |b'.requests|
      ensures UpOk(b'.up, b'.requests[q]) && DownOk(b'.down, b'.requests[q]) && CallOk(b'.pool, b'.calls, b'.requests[q])
    {
      assert UpOk(b.up, b.requests[q]) && DownOk(b.down, b.requests[q]) && CallOk(b.pool, b.calls, b.requests[q]);
    }
  }

  /** The calls that are there stay as they are when another arrives. */
  lemma CallsArrive(b: Broker, w: Worker)
    ensures var p := SessionPool.Next(b.pool, SessionPool.Step.Arrive(w.name, w.record));
      |p.callers| == |b.pool.callers| + 1 && forall c :: 0 <= c < |b.pool.callers| ==> p.callers[c] == b.pool.callers[c]
  {
  }

  lemma RequestsPool(b: Broker, s: SessionPool.Step)
    requires RequestsOk(b)
    ensures RequestsOk(Next(b, InPool(s)))
  {
    hide SessionPool.Next, UpOk, DownOk, Executes;
    var b' := Next(b, InPool(s));
    if !s.Arrive? {
      Callers(b.pool, s);
      forall q | 0 <= q < |b'.requests| ensures CallOk(b'.pool, b'.calls, b'.requests[q]) {
        assert CallOk(b.pool, b.calls, b.requests[q]);
        var stage := b.requests[q].stage;
        if HasReply(stage) || stage.Failed? { OverStays(b.pool, s, stage.c); }
      }
    }
  }

  lemma RequestsReply(b: Broker, r: nat)
    requires RequestsOk(b) && LanesOk(b.down)
    ensures RequestsOk(Next(b, Reply(r)))
  {
    hide SessionPool.Next, LanesOk, UpOk, CallOk, DownOk;
    var b' := Next(b, Reply(r));
    if Waits(b, r) {
      LaneSound(b.down, b.requests[r].app);
      ReplyHere(b, r);
      forall q | 0 <= q < |b'.requests|
        ensures UpOk(b'.up, b'.requests[q]) && DownOk(b'.down, b'.requests[q]) && CallOk(b'.pool, b'.calls, b'.requests[q])
      {
        if q != r { DownSeal(b.down, b.requests[r].app, b.requests[q]); }
      }
    }
  }

  lemma ReplyHere(b: Broker, r: nat)
    requires RequestsOk(b) && Waits(b, r) && Lanes.Sound(LaneOf(b.down, b.requests[r].app))
    ensures var b' := Next(b, Reply(r));
      UpOk(b'.up, b'.requests[r]) && DownOk(b'.down, b'.requests[r]) && CallOk(b'.pool, b'.calls, b'.requests[r])
  {
    hide SessionPool.Next;
    assert UpOk(b.up, b.requests[r]) && CallOk(b.pool, b.calls, b.requests[r]);
  }

  lemma RequestsDeliver(b: Broker, r: nat)
    requires RequestsOk(b) && AllApart(b.requests) && LanesOk(b.down)
    ensures RequestsOk(Next(b, Deliver(r)))
  {
    hide SessionPool.Next, LanesOk, CallOk, DownOk, UpOk, Apart, Lanes.Arrive;
    var b' := Next(b, Deliver(r));
    if r < |b.requests| && b.requests[r].stage.Replying? {
      DeliveredHere(b, r);
      forall q | 0 <= q < |b'.requests|
        ensures UpOk(b'.up, b'.requests[q]) && DownOk(b'.down, b'.requests[q]) && CallOk(b'.pool, b'.calls, b'.requests[q])
      {
        if q != r {
          ApartNumbers(b.requests, q, r);
          DownArrive(b.down, b.requests[r].app, b.requests[r].stage.reply, b.requests[q]);
        }
      }
    }
  }

  lemma DeliveredHere(b: Broker, r: nat)
    requires RequestsOk(b) && LanesOk(b.down) && r < |b.requests| && b.requests[r].stage.Replying?
    ensures var b' := Next(b, Deliver(r));
      UpOk(b'.up, b'.requests[r]) && DownOk(b'.down, b'.requests[r]) && CallOk(b'.pool, b'.calls, b'.requests[r])
  {
    hide SessionPool.Next, LanesOk;
    LaneSound(b.down, b.requests[r].app);
    assert UpOk(b.up, b.requests[r]) && DownOk(b.down, b.requests[r]) && CallOk(b.pool, b.calls, b.requests[r]);
    ArriveSound(LaneOf(b.down, b.requests[r].app), b.requests[r].stage.reply);
  }

  lemma RequestsStep(b: Broker, step: Step)
    requires Sound(b)
    ensures RequestsOk(Next(b, step))
  {
    hide Next, RequestsOk, LanesOk, AllApart, ChecksOk, CallsOk;
    match step {
      case Call(app, capability) => RequestsCall(b, app, capability);
      case Open(r) => RequestsOpen(b, r);
      case Permit(_, _) => RequestsHere(b, step);
      case Route(_, _) => RequestsHere(b, step);
      case InPool(s) => RequestsPool(b, s);
      case Reply(r) => RequestsReply(b, r);
      case Deliver(r) => RequestsDeliver(b, r);
    }
  }

  /** Numbers and calls are given once. */
  lemma ApartStep(b: Broker, step: Step)
    requires RequestsOk(b) && AllApart(b.requests) && CallsOk(b)
    ensures AllApart(Next(b, step).requests)
  {
    hide *;
    match step {
      case Call(app, capability) => ApartCall(b, app, capability);
      case Route(r, registry) => ApartRoute(b, r, registry);
      case Reply(r) => ApartReply(b, r);
      case _ => ApartElse(b, step);
    }
  }

  lemma ApartElse(b: Broker, step: Step)
    requires AllApart(b.requests) && !step.Call? && !step.Route? && !step.Reply?
    ensures AllApart(Next(b, step).requests)
  {
    hide SessionPool.Next, Lanes.Arrive, Opens, Executes;
    var b' := Next(b, step);
    forall q, r | 0 <= q < r < |b'.requests| ensures Apart(b'.requests[q], b'.requests[r]) {
      assert Apart(b.requests[q], b.requests[r]);
    }
  }

  lemma ApartCall(b: Broker, app: string, capability: string)
    requires RequestsOk(b) && AllApart(b.requests)
    ensures AllApart(Next(b, Call(app, capability)).requests)
  {
    hide DownOk, CallOk, Seal;
    var b' := Next(b, Call(app, capability));
    forall q, r | 0 <= q < r < |b'.requests| ensures Apart(b'.requests[q], b'.requests[r]) {
      assert UpOk(b.up, b.requests[q]);
      assert r < |b.requests| ==> Apart(b.requests[q], b.requests[r]);
    }
  }

  lemma ApartRoute(b: Broker, x: nat, registry: seq<Worker>)
    requires RequestsOk(b) && AllApart(b.requests) && CallsOk(b)
    ensures AllApart(Next(b, Route(x, registry)).requests)
  {
    hide SessionPool.Next, Next, CallsOk, Apart, UpOk, DownOk, CallOk;
    Routed(b, x, registry);
    var b' := Next(b, Route(x, registry));
    forall q, r | 0 <= q < r < |b'.requests| ensures Apart(b'.requests[q], b'.requests[r]) {
      assert Apart(b.requests[q], b.requests[r]);
      assert CallOk(b.pool, b.calls, b.requests[q]) && CallOk(b.pool, b.calls, b.requests[r]);
      RoutedApart(b, b'.requests[q], b'.requests[r], b.requests[q], b.requests[r]);
    }
  }

  /** The request that is routed gets a call of its own, if any. */
  lemma Routed(b: Broker, x: nat, registry: seq<Worker>)
    ensures var requests := Next(b, Route(x, registry)).requests;
      && |requests| == |b.requests|
      && (forall r :: 0 <= r < |b.requests| && r != x ==> requests[r] == b.requests[r])
      && (x < |b.requests| ==> requests[x] == b.requests[x] || NewlyRouted(b, b.requests[x], requests[x]))
  {
    hide SessionPool.Next, FirstOffer;
  }

  predicate NewlyRouted(b: Broker, q: Request, q': Request) {
    q' == q.(stage := q'.stage) && !HasReply(q'.stage) && (q'.stage.NoWorker? || q'.stage == Pooled(|b.pool.callers|))
  }

  lemma RoutedApart(b: Broker, q': Request, r': Request, q: Request, r: Request)
    requires Apart(q, r) && CallOk(b.pool, b.calls, q) && CallOk(b.pool, b.calls, r)
    requires (q' == q && (r' == r || NewlyRouted(b, r, r'))) || (r' == r && NewlyRouted(b, q, q'))
    ensures Apart(q', r')
  {
  }

  lemma ApartReply(b: Broker, x: nat)
    requires RequestsOk(b) && AllApart(b.requests)
    ensures AllApart(Next(b, Reply(x)).requests)
  {
    hide UpOk, CallOk, Seal;
    var b' := Next(b, Reply(x));
    forall q, r | 0 <= q < r < |b'.requests| ensures Apart(b'.requests[q], b'.requests[r]) {
      assert DownOk(b.down, b.requests[q]) && DownOk(b.down, b.requests[r]);
      assert Apart(b.requests[q], b.requests[r]);
    }
  }

  lemma ChecksStep(b: Broker, step: Step)
    requires ChecksOk(b)
    ensures ChecksOk(Next(b, step))
  {
    hide Next, Remembered, Passed;
    var b' := Next(b, step);
    forall x | x in b'.checks ensures Remembered(b'.requests, x) {
      RememberedStep(b, step, x);
    }
    forall r | 0 <= r < |b'.requests| ensures Passed(b', r) {
      PassedStep(b, step, r);
    }
  }

  lemma RememberedStep(b: Broker, step: Step, x: Check)
    requires x in Next(b, step).checks && (x in b.checks ==> Remembered(b.requests, x))
    ensures Remembered(Next(b, step).requests, x)
  {
    hide SessionPool.Next, FirstOffer, Lanes.Arrive, Opens, Executes, Seal, LaneOf;
  }

  lemma PassedStep(b: Broker, step: Step, r: nat)
    requires r < |Next(b, step).requests| && (r < |b.requests| ==> Passed(b, r))
    ensures Passed(Next(b, step), r)
  {
    hide SessionPool.Next, FirstOffer, Lanes.Arrive, Opens, Executes, Seal, LaneOf;
  }

  lemma OwnedStays(b: Broker, step: Step, c: nat)
    requires Owned(b, c)
    ensures Owned(Next(b, step), c)
  {
    hide SessionPool.Next, FirstOffer, Lanes.Arrive, Opens, Executes, Seal;
    var r :| 0 <= r < |b.requests| && CallOf(b.requests[r].stage) == Some(c);
    assert CallOf(Next(b, step).requests[r].stage) == Some(c);
  }

  lemma CallsRoute(b: Broker, r: nat, registry: seq<Worker>)
    requires CallsOk(b)
    ensures CallsOk(Next(b, Route(r, registry)))
  {
    hide SessionPool.Next, FirstOffer, Times, Owned;
    var b' := Next(b, Route(r, registry));
    if r < |b.requests| && b.requests[r].stage.Granted? {
      var w := FirstOffer(registry, b.requests[r].capability);
      if w.Some? {
        CallsArrive(b, w.value);
        NotYet(b, |b.calls|);
        ArrivedFresh(b.pool, w.value);
        OwnedFirst(b, r, registry);
      }
    }
    forall c | 0 <= c < |b.calls| ensures Owned(b', c) { OwnedStays(b, Route(r, registry), c); }
  }

  lemma ArrivedFresh(p: Pool, w: Worker)
    ensures Runs(SessionPool.Next(p, SessionPool.Step.Arrive(w.name, w.record)), |p.callers|) == 0
  {
  }

  lemma NotYet(b: Broker, c: nat)
    requires CallsOk(b) && c >= |b.calls|
    ensures Times(b.executed, c) == 0
  {
    hide Owned, Runs;
    NotAmong(b.executed, c);
  }

  lemma {:induction false} NotAmong(executed: seq<Execution>, c: nat)
    requires forall i :: 0 <= i < |executed| ==> executed[i].c != c
    ensures Times(executed, c) == 0
  {
    if executed != [] { NotAmong(executed[..|executed| - 1], c); }
  }

  lemma OwnedFirst(b: Broker, r: nat, registry: seq<Worker>)
    requires r < |b.requests| && b.requests[r].stage.Granted? && FirstOffer(registry, b.requests[r].capability).Some?
    ensures Owned(Next(b, Route(r, registry)), |b.pool.callers|)
  {
    hide SessionPool.Next, FirstOffer;
    assert CallOf(Next(b, Route(r, registry)).requests[r].stage) == Some(|b.pool.callers|);
  }

  lemma CallsPool(b: Broker, s: SessionPool.Step)
    requires CallsOk(b)
    ensures CallsOk(Next(b, InPool(s)))
  {
    hide SessionPool.Next, Times, Owned, Runs;
    var b' := Next(b, InPool(s));
    Callers(b.pool, s);
    forall c | 0 <= c < |b.calls| && !s.Arrive?
      ensures Owned(b', c) && Times(b'.executed, c) == Runs(b'.pool, c)
    {
      OwnedStays(b, InPool(s), c);
      RunsStep(b.pool, s, c);
      TimesMore(b.executed, Executes(b, s), c);
    }
  }

  lemma CallsStep(b: Broker, step: Step)
    requires CallsOk(b)
    ensures CallsOk(Next(b, step))
  {
    hide SessionPool.Next, Times, Owned, Runs, FirstOffer, Lanes.Arrive, Opens, Seal, Executes;
    match step {
      case Route(r, registry) => CallsRoute(b, r, registry);
      case InPool(s) => CallsPool(b, s);
      case _ =>
        forall c | 0 <= c < |b.calls| ensures Owned(Next(b, step), c) { OwnedStays(b, step, c); }
    }
  }

  lemma SoundStep(b: Broker, step: Step)
    requires Sound(b)
    ensures Sound(Next(b, step))
  {
    hide Next, RequestsOk, LanesOk, AllApart, ChecksOk, CallsOk;
    LanesStep(b, step);
    RequestsStep(b, step);
    ApartStep(b, step);
    ChecksStep(b, step);
    CallsStep(b, step);
  }

  lemma {:induction false} RunSound(steps: seq<Step>)
    ensures Sound(Run(steps))
  {
    if steps != [] {
      hide Sound, Next;
      RunSound(steps[..|steps| - 1]);
      SoundStep(Run(steps[..|steps| - 1]), steps[|steps| - 1]);
    }
  }

  // ----- main results -----

  lemma PoolMore(p: Pool, inner: seq<SessionPool.Step>, s: SessionPool.Step) returns (more: seq<SessionPool.Step>)
    requires SessionPool.Run(SessionPool.EMPTY, inner) == p
    ensures SessionPool.Run(SessionPool.EMPTY, more) == SessionPool.Next(p, s)
  {
    var q;
    more, q := SessionPool.Extend(SessionPool.EMPTY, inner, p, s);
  }

  /** The pool of a broker run is the pool of a pool run: everything proved of those holds here. */
  lemma {:induction false} PoolRun(steps: seq<Step>) returns (inner: seq<SessionPool.Step>)
    ensures Run(steps).pool == SessionPool.Run(SessionPool.EMPTY, inner)
  {
    hide Lanes.Arrive, Seal, Opens, Executes, SessionPool.Next, SessionPool.Run, FirstOffer;
    if steps == [] {
      inner := [];
      PoolNothing();
    } else {
      var l := |steps| - 1;
      var before := Run(steps[..l]);
      inner := PoolRun(steps[..l]);
      match steps[l] {
        case InPool(s) => if !s.Arrive? { inner := PoolMore(before.pool, inner, s); }
        case Route(r, registry) =>
          if r < |before.requests| && before.requests[r].stage.Granted? {
            var w := FirstOffer(registry, before.requests[r].capability);
            if w.Some? { inner := PoolMore(before.pool, inner, SessionPool.Step.Arrive(w.value.name, w.value.record)); }
          }
        case _ =>
      }
    }
  }

  lemma PoolNothing()
    ensures SessionPool.Run(SessionPool.EMPTY, []) == SessionPool.EMPTY
  {
  }

  lemma OnlyOwner(b: Broker, r: nat)
    requires AllApart(b.requests) && r < |b.requests| && CallOf(b.requests[r].stage).Some?
    ensures forall q :: 0 <= q < |b.requests| && q != r ==> CallOf(b.requests[q].stage) != CallOf(b.requests[r].stage)
  {
    hide CallOf, Apart;
    forall q | 0 <= q < |b.requests| && q != r ensures CallOf(b.requests[q].stage) != CallOf(b.requests[r].stage) {
      ApartNumbers(b.requests, q, r);
    }
  }

  /** In every run, whatever a worker executes belongs to one request of one application, the check of this very request
      has granted exactly the capability that is executed, and it is executed at most twice for it. */
  lemma GrantedOnly(steps: seq<Step>, i: nat) returns (r: nat)
    requires i < |Run(steps).executed|
    ensures var b, x := Run(steps), Run(steps).executed[i];
      && r < |b.requests| && CallOf(b.requests[r].stage) == Some(x.c) && b.requests[r].capability == x.capability
      && Check(r, b.requests[r].app, x.capability, true) in b.checks
      && (forall q :: 0 <= q < |b.requests| && CallOf(b.requests[q].stage) == Some(x.c) ==> q == r)
      && Times(b.executed, x.c) <= 2
  {
    hide Run, Next, Remembered, UpOk, DownOk, LanesOk, SessionPool.Run;
    RunSound(steps);
    var b, x := Run(steps), Run(steps).executed[i];
    assert Owned(b, x.c);
    r :| 0 <= r < |b.requests| && CallOf(b.requests[r].stage) == Some(x.c);
    assert Passed(b, r) && CallOk(b.pool, b.calls, b.requests[r]);
    OnlyOwner(b, r);
    if SessionPool.Logs(b.pool.callers[x.c]) {
      var inner := PoolRun(steps);
      SessionPool.RetryDiscipline(inner, x.c);
    }
  }

  ghost predicate OwnedByOther(b: Broker, c: nat, q: nat) {
    exists r :: 0 <= r < |b.requests| && r != q && CallOf(b.requests[r].stage) == Some(c)
  }

  /** In every run, a request whose check was negative has no pooled call: it is checked once, stays denied, and every
      call in the pool is that of another request. */
  lemma DeniedNoCall(steps: seq<Step>, x: Check)
    requires x in Run(steps).checks && !x.granted
    ensures var b := Run(steps);
      && x.request < |b.requests| && b.requests[x.request].stage == Denied
      && (forall y :: y in b.checks && y.request == x.request ==> y == x)
      && (forall c :: 0 <= c < |b.pool.callers| ==> OwnedByOther(b, c, x.request))
  {
    hide Run, Next, UpOk, DownOk, CallOk, LanesOk;
    RunSound(steps);
    var b := Run(steps);
    assert Remembered(b.requests, x);
    forall c | 0 <= c < |b.pool.callers|
      ensures OwnedByOther(b, c, x.request)
    {
      assert Owned(b, c);
      var r :| 0 <= r < |b.requests| && CallOf(b.requests[r].stage) == Some(c);
      assert r != x.request;
    }
    forall y | y in b.checks && y.request == x.request ensures y == x {
      assert Remembered(b.requests, y);
    }
  }

  lemma {:induction false} TimesSome(executed: seq<Execution>, c: nat) returns (i: nat)
    requires Times(executed, c) > 0
    ensures i < |executed| && executed[i].c == c
  {
    var l := |executed| - 1;
    if executed[l].c == c { i := l; } else { i := TimesSome(executed[..l], c); }
  }

  lemma RanSome(log: seq<SessionPool.Attempt>)
    requires 0 < |log| <= 2 && log[|log| - 1].ran
    ensures SessionPool.Ran(log) > 0
  {
  }

  /** What the pool has returned for a call, the worker has sealed for it, having run the capability. */
  lemma ReturnedRan(steps: seq<Step>, c: nat, value: nat)
    requires var p := Run(steps).pool;
      c < |p.callers| && p.callers[c].Finished? && p.callers[c].outcome == SessionPool.Returned(value)
    ensures var p := Run(steps).pool;
      && p.callers[c].log != [] && Runs(p, c) > 0
      && var a := p.callers[c].log[|p.callers[c].log| - 1];
         a.ran && a.reply == SessionPool.Reply.Value(a.session, value)
  {
    hide Run, SessionPool.Run;
    var inner := PoolRun(steps);
    SessionPool.RetryDiscipline(inner, c);
    RanSome(Run(steps).pool.callers[c].log);
  }

  /** In every run, a value that is sealed for a request is what its own pooled call has returned: the check of this request has
      granted the capability, the call is no other request's, and the worker that ran the capability for it has sealed this value. */
  lemma OwnAnswer(steps: seq<Step>, r: nat)
    requires r < |Run(steps).requests| && HasReply(Run(steps).requests[r].stage)
    ensures var b, q := Run(steps), Run(steps).requests[r];
      var c := q.stage.c;
      && c < |b.pool.callers| == |b.calls| && b.pool.callers[c].Finished?
      && b.pool.callers[c].outcome == SessionPool.Returned(q.stage.value)
      && b.calls[c] == q.capability && Check(r, q.app, q.capability, true) in b.checks
      && (forall p :: 0 <= p < |b.requests| && CallOf(b.requests[p].stage) == Some(c) ==> p == r)
    ensures var b, q := Run(steps), Run(steps).requests[r];
      && Execution(q.stage.c, q.capability) in b.executed
      && b.pool.callers[q.stage.c].log != []
      && var log := b.pool.callers[q.stage.c].log;
         log[|log| - 1].ran && log[|log| - 1].reply == SessionPool.Reply.Value(log[|log| - 1].session, q.stage.value)
  {
    hide Run, Next, Remembered, UpOk, DownOk, LanesOk, SessionPool.Run, Times, Runs, Apart;
    RunSound(steps);
    var b, q := Run(steps), Run(steps).requests[r];
    assert Passed(b, r) && CallOk(b.pool, b.calls, q);
    OnlyOwner(b, r);
    ReturnedRan(steps, q.stage.c, q.stage.value);
    var i := TimesSome(b.executed, q.stage.c);
    assert b.executed[i] == Execution(q.stage.c, q.capability);
  }

  // ----- overlapping calls of one application -----

  lemma AllLanes(b: Broker, app: string)
    requires Sound(b)
    ensures Lanes.Sound(LaneOf(b.up, app)) && Lanes.Sound(LaneOf(b.down, app))
  {
    hide Lanes.Sound, RequestsOk, ChecksOk, CallsOk, AllApart;
    IdleSound();
  }

  /** In every run, a request that has arrived was opened if and only if it and all that its application sealed before it have
      arrived in the order of their sealing; and the same for replies. */
  lemma OpenedIff(steps: seq<Step>, r: nat)
    requires r < |Run(steps).requests|
    ensures var b, q := Run(steps), Run(steps).requests[r];
      var up, down := LaneOf(b.up, q.app).arrived, LaneOf(b.down, q.app).arrived;
      && (q.stage.Sent? <==> q.number !in up)
      && (!q.stage.Sent? ==> (q.stage.Unopened? <==> !InOrder(up, q.number)))
      && (HasReply(q.stage) ==>
            && (q.stage.Replying? <==> q.stage.reply !in down)
            && (!q.stage.Replying? ==> (q.stage.Lost? <==> !InOrder(down, q.stage.reply))))
  {
    hide Run, Next, InOrder, Once, ChecksOk, CallsOk, AllApart, CallOk;
    RunSound(steps);
    var b, q := Run(steps), Run(steps).requests[r];
    AllLanes(b, q.app);
    assert UpOk(b.up, q) && DownOk(b.down, q);
  }

  /** Once a request of an application has arrived too early, none that the application seals later is ever opened. */
  lemma NeverAgain(steps: seq<Step>, q: nat, r: nat)
    requires q < |Run(steps).requests| && r < |Run(steps).requests|
    requires Run(steps).requests[q].stage.Unopened? && Run(steps).requests[r].app == Run(steps).requests[q].app
    requires Run(steps).requests[r].number > Run(steps).requests[q].number
    ensures Run(steps).requests[r].stage.Sent? || Run(steps).requests[r].stage.Unopened?
  {
    hide Run, Next, InOrder, Once, ChecksOk, CallsOk, AllApart, CallOk, DownOk;
    RunSound(steps);
    var b := Run(steps);
    AllLanes(b, b.requests[q].app);
    assert UpOk(b.up, b.requests[q]) && UpOk(b.up, b.requests[r]);
    Stuck(LaneOf(b.up, b.requests[q].app), b.requests[q].number, b.requests[r].number);
  }

  // ----- calls that do not overlap -----

  predicate Over(stage: Stage) { stage.Denied? || stage.NoWorker? || stage.Failed? || stage.Done? }

  /** The application waits for each call before it makes the next. */
  ghost predicate OneByOne(steps: seq<Step>, app: string) {
    forall i :: 0 <= i < |steps| && steps[i].Call? && steps[i].app == app ==> AllOver(Run(steps[..i]), app)
  }

  ghost predicate AllOver(b: Broker, app: string) {
    forall r :: 0 <= r < |b.requests| && b.requests[r].app == app ==> Over(b.requests[r].stage)
  }

  /** What is under way is the next to open. */
  ghost predicate NextToOpen(up: Lane, down: Lane, stage: Stage, number: nat) {
    && !stage.Unopened? && !stage.Lost?
    && (stage.Sent? ==> number == up.next && up.sealed == up.next + 1)
    && (stage.Replying? ==> stage.reply == down.next && down.sealed == down.next + 1)
  }

  /** At most one call of the application is under way, and whatever it has sealed otherwise has been opened. */
  ghost predicate OneAtATime(requests: seq<Request>, up: Lane, down: Lane, app: string) {
    && (forall q, r :: 0 <= q < r < |requests| && requests[q].app == app == requests[r].app ==>
          Over(requests[q].stage) || Over(requests[r].stage))
    && (forall r :: 0 <= r < |requests| && requests[r].app == app ==> NextToOpen(up, down, requests[r].stage, requests[r].number))
    && ((forall r :: 0 <= r < |requests| && requests[r].app == app ==> !requests[r].stage.Sent?) ==> up.next == up.sealed)
    && ((forall r :: 0 <= r < |requests| && requests[r].app == app ==> !requests[r].stage.Replying?) ==> down.next == down.sealed)
  }

  ghost predicate Orderly(b: Broker, app: string) {
    OneAtATime(b.requests, LaneOf(b.up, app), LaneOf(b.down, app), app)
  }

  /** The call that is under way. */
  lemma TheOne(requests: seq<Request>, up: Lane, down: Lane, app: string, r: nat)
    requires OneAtATime(requests, up, down, app) && r < |requests| && requests[r].app == app && !Over(requests[r].stage)
    ensures NextToOpen(up, down, requests[r].stage, requests[r].number)
    ensures !requests[r].stage.Sent? ==> up.next == up.sealed
    ensures !requests[r].stage.Replying? ==> down.next == down.sealed
  {
    assert forall q :: 0 <= q < |requests| && requests[q].app == app && q != r ==> Over(requests[q].stage);
  }

  lemma TheOneMoves(requests: seq<Request>, up: Lane, down: Lane, up': Lane, down': Lane, app: string, r: nat, stage: Stage)
    requires OneAtATime(requests, up, down, app) && r < |requests| && requests[r].app == app && !Over(requests[r].stage)
    requires NextToOpen(up', down', stage, requests[r].number)
    requires (!stage.Sent? ==> up'.next == up'.sealed) && (!stage.Replying? ==> down'.next == down'.sealed)
    ensures OneAtATime(requests[r := requests[r].(stage := stage)], up', down', app)
  {
    var requests' := requests[r := requests[r].(stage := stage)];
    assert forall q :: 0 <= q < |requests| && requests[q].app == app && q != r ==> Over(requests[q].stage);
    assert requests'[r].stage == stage && forall q :: 0 <= q < |requests| && q != r ==> requests'[q] == requests[q];
  }

  lemma AnotherMoves(requests: seq<Request>, up: Lane, down: Lane, app: string, r: nat, stage: Stage)
    requires OneAtATime(requests, up, down, app) && r < |requests| && requests[r].app != app
    ensures OneAtATime(requests[r := requests[r].(stage := stage)], up, down, app)
  {
    hide NextToOpen, Over;
    var requests' := requests[r := requests[r].(stage := stage)];
    assert requests'[r].app != app && forall q :: 0 <= q < |requests| && q != r ==> requests'[q] == requests[q];
  }

  lemma OneMore(requests: seq<Request>, up: Lane, down: Lane, app: string, q: Request)
    requires OneAtATime(requests, up, down, app) && q.stage.Sent?
    requires q.app == app ==> q.number == up.sealed && forall r :: 0 <= r < |requests| && requests[r].app == app ==> Over(requests[r].stage)
    ensures OneAtATime(requests + [q], if q.app == app then Seal(up) else up, down, app)
  {
    var requests' := requests + [q];
    assert requests'[|requests|] == q && forall r :: 0 <= r < |requests| ==> requests'[r] == requests[r];
  }

  lemma OneCall(b: Broker, app: string, other: string, capability: string)
    requires Orderly(b, app) && (other == app ==> AllOver(b, app))
    ensures Orderly(Next(b, Call(other, capability)), app)
  {
    hide OneAtATime, Over;
    OneMore(b.requests, LaneOf(b.up, app), LaneOf(b.down, app), app, Request(other, capability, LaneOf(b.up, other).sealed, Sent));
  }

  /** A step that gives request `r` a new stage, and moves the lanes of no other application. */
  lemma OneStep(b: Broker, b': Broker, app: string, r: nat)
    requires Orderly(b, app) && r < |b.requests| && |b'.requests| == |b.requests|
    requires b'.requests == b.requests[r := b.requests[r].(stage := b'.requests[r].stage)]
    requires b.requests[r].app != app ==> LaneOf(b'.up, app) == LaneOf(b.up, app) && LaneOf(b'.down, app) == LaneOf(b.down, app)
    requires b.requests[r].app == app ==>
      var up, down, stage := LaneOf(b'.up, app), LaneOf(b'.down, app), b'.requests[r].stage;
      && !Over(b.requests[r].stage) && NextToOpen(up, down, stage, b.requests[r].number)
      && (!stage.Sent? ==> up.next == up.sealed) && (!stage.Replying? ==> down.next == down.sealed)
    ensures Orderly(b', app)
  {
    hide OneAtATime, NextToOpen, Over;
    if b.requests[r].app == app {
      TheOneMoves(b.requests, LaneOf(b.up, app), LaneOf(b.down, app), LaneOf(b'.up, app), LaneOf(b'.down, app),
        app, r, b'.requests[r].stage);
    } else {
      AnotherMoves(b.requests, LaneOf(b.up, app), LaneOf(b.down, app), app, r, b'.requests[r].stage);
    }
  }

  lemma OneMessage(b: Broker, app: string, step: Step)
    requires Orderly(b, app) && (step.Open? || step.Deliver?)
    ensures Orderly(Next(b, step), app)
  {
    hide OneAtATime, SessionPool.Next, FirstOffer;
    var b', r := Next(b, step), step.r;
    if r < |b.requests| && b' != b {
      if b.requests[r].app == app { TheOne(b.requests, LaneOf(b.up, app), LaneOf(b.down, app), app, r); }
      OneStep(b, b', app, r);
    }
  }

  lemma OneElse(b: Broker, app: string, step: Step)
    requires Orderly(b, app) && (step.Permit? || step.Route? || step.Reply?)
    ensures Orderly(Next(b, step), app)
  {
    hide OneAtATime, SessionPool.Next, FirstOffer;
    var b', r := Next(b, step), step.r;
    if r < |b.requests| && b' != b {
      if b.requests[r].app == app { TheOne(b.requests, LaneOf(b.up, app), LaneOf(b.down, app), app, r); }
      OneStep(b, b', app, r);
    }
  }

  /** An application that makes its calls one by one never has a message refused: no request of it is turned away at the broker,
      and no reply gets lost. */
  lemma {:induction false} OneByOneSafe(steps: seq<Step>, app: string)
    requires OneByOne(steps, app)
    ensures Orderly(Run(steps), app)
    ensures forall r :: 0 <= r < |Run(steps).requests| && Run(steps).requests[r].app == app ==>
      !Run(steps).requests[r].stage.Unopened? && !Run(steps).requests[r].stage.Lost?
  {
    hide Next, AllOver, Over;
    if steps != [] {
      var l := |steps| - 1;
      var b := Run(steps[..l]);
      assert forall i :: 0 <= i < l ==> steps[..l][..i] == steps[..i];
      OneByOneSafe(steps[..l], app);
      match steps[l] {
        case Call(other, capability) => OneCall(b, app, other, capability);
        case InPool(s) => PoolOnly(b, s);
        case Open(_) => OneMessage(b, app, steps[l]);
        case Deliver(_) => OneMessage(b, app, steps[l]);
        case _ => OneElse(b, app, steps[l]);
      }
    }
  }

  lemma PoolOnly(b: Broker, s: SessionPool.Step)
    ensures var b' := Next(b, InPool(s)); b'.requests == b.requests && b'.up == b.up && b'.down == b.down
  {
    hide SessionPool.Next;
  }

  // ----- runs -----

  lemma Extend(steps: seq<Step>, b: Broker, step: Step) returns (more: seq<Step>, b': Broker)
    requires Run(steps) == b
    ensures b' == Next(b, step) && Run(more) == b'
  {
    hide Next;
    more, b' := steps + [step], Next(b, step);
    assert more[..|more| - 1] == steps;
  }

  /** From whatever state, a request that overtakes nothing is opened and checked, and, if it is granted, becomes a call for the
      first worker that offers the capability, or is told that there is none. The pool, and all other requests, stay as they are. */
  lemma GoesIn(b: Broker, app: string, capability: string, granted: bool, registry: seq<Worker>)
    requires LaneOf(b.up, app).next == LaneOf(b.up, app).sealed
    ensures var (r, n, c) := (|b.requests|, LaneOf(b.up, app).sealed, |b.pool.callers|);
      var b' := Next(Next(Next(Next(b, Call(app, capability)), Open(r)), Permit(r, granted)), Route(r, registry));
      && b'.checks == b.checks + [Check(r, app, capability, granted)] && b'.executed == b.executed && b'.down == b.down
      && if granted && exists i :: 0 <= i < |registry| && capability in registry[i].capabilities then
           && b'.requests == b.requests + [Request(app, capability, n, Pooled(c))] && b'.calls == b.calls + [capability]
           && exists i :: 0 <= i < |registry| && IsFirst(registry, capability, i)
                && b'.pool == b.pool.(callers := b.pool.callers + [SessionPool.Arrived(registry[i].name, registry[i].record)])
         else
           && b'.requests == b.requests + [Request(app, capability, n, if granted then NoWorker else Denied)]
           && b'.pool == b.pool && b'.calls == b.calls
  {
    hide SessionPool.Next, FirstOffer;
    var (r, n) := (|b.requests|, LaneOf(b.up, app).sealed);
    var b1 := Next(b, Call(app, capability));
    assert b1.requests == b.requests + [Request(app, capability, n, Sent)] && LaneOf(b1.up, app) == Seal(LaneOf(b.up, app));
    var b2 := Next(b1, Open(r));
    assert b2.requests == b.requests + [Request(app, capability, n, Received)];
    var b3 := Next(b2, Permit(r, granted));
    assert b3.requests == b.requests + [Request(app, capability, n, if granted then Granted else Denied)];
    if granted {
      var w := FirstOffer(registry, capability);
      if w.Some? { ArrivesInPool(b3.pool, w.value); }
      var b4 := Next(b3, Route(r, registry));
      assert b4.requests == b.requests + [Request(app, capability, n, if w.Some? then Pooled(|b.pool.callers|) else NoWorker)];
    }
  }

  lemma ArrivesInPool(p: Pool, w: Worker)
    ensures SessionPool.Next(p, SessionPool.Step.Arrive(w.name, w.record))
      == p.(callers := p.callers + [SessionPool.Arrived(w.name, w.record)])
  {
  }

  /** From whatever state, once the call of a request is over its outcome gets out: a failure as such, and a value, if no other
      reply to the application is under way, to the application. */
  lemma GetsOut(b: Broker, r: nat)
    requires Waits(b, r) && LaneOf(b.down, b.requests[r].app).next == LaneOf(b.down, b.requests[r].app).sealed
    ensures var (c, n, b') := (b.requests[r].stage.c, LaneOf(b.down, b.requests[r].app).sealed, Next(Next(b, Reply(r)), Deliver(r)));
      && b'.requests == b.requests[r := b.requests[r].(stage :=
           match b.pool.callers[c].outcome case Returned(value) => Done(c, value, n) case Failed => Failed(c))]
      && b'.pool == b.pool && b'.up == b.up && b'.checks == b.checks && b'.executed == b.executed
      && (b.pool.callers[c].outcome.Failed? ==> b'.down == b.down)
  {
    hide SessionPool.Next;
    var c := b.requests[r].stage.c;
    var b1 := Next(b, Reply(r));
    if b.pool.callers[c].outcome.Returned? {
      assert LaneOf(b1.down, b.requests[r].app) == Seal(LaneOf(b.down, b.requests[r].app));
      var b' := Next(b1, Deliver(r));
      assert b'.requests[r].stage == Done(c, b.pool.callers[c].outcome.value, LaneOf(b.down, b.requests[r].app).sealed);
    }
  }

  /** Two requests of one application, in flight at the same time. */
  lemma TwoCalls() returns (steps: seq<Step>)
    ensures Run(steps) == EMPTY.(requests := [Request("app", "f", 0, Sent), Request("app", "f", 1, Sent)],
      up := map["app" := Lane(2, 0, [])])
  {
    var b;
    steps, b := Extend([], EMPTY, Call("app", "f"));
    assert b.up == map["app" := Lane(1, 0, [])];
    steps, b := Extend(steps, b, Call("app", "f"));
    assert b.up == map["app" := Lane(2, 0, [])];
  }

  /** The second overtakes the first and is refused. */
  lemma Overtaken() returns (steps: seq<Step>)
    ensures var b := Run(steps);
      |b.requests| == 2 && b.requests[0].app == b.requests[1].app && b.requests[0].stage.Received? && b.requests[1].stage.Unopened?
  {
    hide Run;
    var b;
    steps := TwoCalls();
    steps, b := Extend(steps, Run(steps), Open(1));
    assert b.requests == [Request("app", "f", 0, Sent), Request("app", "f", 1, Unopened)];
    assert [] + [1] == [1];
    assert b.up == map["app" := Lane(2, 0, [1])];
    steps, b := Extend(steps, b, Open(0));
  }

  function Asked(first: Stage, second: Stage): seq<Request> { [Request("app", "f", 0, first), Request("app", "f", 1, second)] }

  const BOTH_CHECKED := [Check(0, "app", "f", true), Check(1, "app", "f", true)]

  /** Both in order, checked and routed to the only worker, with the pool and what it has executed so far. */
  function Served(pool: Pool, executed: seq<Execution>): Broker {
    Broker(pool, ["f", "f"], Asked(Pooled(0), Pooled(1)), map["app" := Lane(2, 2, [0, 1])], map[], BOTH_CHECKED, executed)
  }

  lemma BothOpened() returns (steps: seq<Step>, b: Broker)
    ensures b == Run(steps)
    ensures b == EMPTY.(requests := Asked(Granted, Granted), up := map["app" := Lane(2, 2, [0, 1])], checks := BOTH_CHECKED)
  {
    hide Run;
    steps := TwoCalls();
    steps, b := Extend(steps, Run(steps), Open(0));
    assert [] + [0] == [0] && [0] + [1] == [0, 1];
    assert b.up == map["app" := Lane(2, 1, [0])] && b.requests == Asked(Received, Sent);
    steps, b := Extend(steps, b, Open(1));
    assert b.up == map["app" := Lane(2, 2, [0, 1])] && b.requests == Asked(Received, Received);
    steps, b := Extend(steps, b, Permit(0, true));
    assert b.requests == Asked(Granted, Received);
    steps, b := Extend(steps, b, Permit(1, true));
    assert b.requests == Asked(Granted, Granted) && b.checks == BOTH_CHECKED;
  }

  lemma BothRouted() returns (steps: seq<Step>, b: Broker)
    ensures b == Run(steps) == Served(SessionPool.EMPTY.(callers := [SessionPool.Arrived("w", 0), SessionPool.Arrived("w", 0)]), [])
  {
    hide Run;
    var registry := [Worker("w", 0, {"f"})];
    steps, b := BothOpened();
    steps, b := Extend(steps, b, Route(0, registry));
    assert b.requests == Asked(Pooled(0), Granted) && b.pool.callers == [SessionPool.Arrived("w", 0)] && b.calls == ["f"];
    steps, b := Extend(steps, b, Route(1, registry));
    assert b.requests == Asked(Pooled(0), Pooled(1)) && b.calls == ["f", "f"];
    assert b.pool.callers == [SessionPool.Arrived("w", 0), SessionPool.Arrived("w", 0)];
  }

  lemma PoolStep(steps: seq<Step>, pool: Pool, executed: seq<Execution>, s: SessionPool.Step, pool': Pool)
    returns (more: seq<Step>)
    requires Run(steps) == Served(pool, executed) && !s.Arrive? && SessionPool.Next(pool, s) == pool'
    ensures Run(more) == Served(pool',
      executed + if (s.RunCapability? || s.RunLate?) && s.c < 2 && Runs(pool', s.c) > Runs(pool, s.c) then [Execution(s.c, "f")] else [])
  {
    hide Run, SessionPool.Next, Runs;
    var b;
    more, b := Extend(steps, Served(pool, executed), InPool(s));
  }

  /** The pool while the first of two calls for the worker is inside, or done. */
  function PoolWith(first: SessionPool.Caller, second: SessionPool.Caller, permits: nat, connected: bool): Pool {
    SessionPool.Pool(map["w" := 0],
      [if connected then SessionPool.Entry("w", permits, Some(SessionPool.Client(0, 0, false)), Some(0))
        else SessionPool.Entry("w", permits, None, None)],
      [first, second], map[], if connected then 1 else 0)
  }

  function InCall(phase: SessionPool.Phase, log: seq<SessionPool.Attempt>, runs: nat): SessionPool.Caller {
    SessionPool.Inside("w", 0, 0, phase, log, runs)
  }

  const FIRST_DONE :=
    SessionPool.Finished("w", 0, SessionPool.Returned(7), [SessionPool.Attempt(0, SessionPool.Reply.Value(0, 7), true)], 1)

  const SECOND_DONE :=
    SessionPool.Finished("w", 0, SessionPool.Returned(8), [SessionPool.Attempt(0, SessionPool.Reply.Value(0, 8), true)], 1)

  lemma FirstSent() returns (steps: seq<Step>)
    ensures Run(steps) == Served(PoolWith(InCall(SessionPool.Sending(false, 0, false), [], 0), SessionPool.Arrived("w", 0), 0, true), [])
  {
    hide Run;
    var b;
    var next := SessionPool.Arrived("w", 0);
    steps, b := BothRouted();
    steps := PoolStep(steps, b.pool, [], SessionPool.GetOrAdd(0), PoolWith(SessionPool.Queued("w", 0, 0), next, 1, false));
    steps := PoolStep(steps, PoolWith(SessionPool.Queued("w", 0, 0), next, 1, false), [], SessionPool.Enter(0),
                      PoolWith(InCall(SessionPool.Phase.Check, [], 0), next, 0, false));
    steps := PoolStep(steps, PoolWith(InCall(SessionPool.Phase.Check, [], 0), next, 0, false), [], SessionPool.Decide(0),
                      PoolWith(InCall(SessionPool.Connecting(false, 0), [], 0), next, 0, false));
    steps := PoolStep(steps, PoolWith(InCall(SessionPool.Connecting(false, 0), [], 0), next, 0, false), [], SessionPool.Connected(0, true),
                      PoolWith(InCall(SessionPool.Sending(false, 0, false), [], 0), next, 0, true));
  }

  lemma FirstServed() returns (steps: seq<Step>)
    ensures Run(steps) == Served(PoolWith(FIRST_DONE, SessionPool.Arrived("w", 0), 1, true), [Execution(0, "f")])
  {
    hide Run;
    var next, log, done := SessionPool.Arrived("w", 0), [SessionPool.Attempt(0, SessionPool.Reply.Value(0, 7), true)], [Execution(0, "f")];
    assert [] + done == done && [] + log == log;
    steps := FirstSent();
    steps := PoolStep(steps, PoolWith(InCall(SessionPool.Sending(false, 0, false), [], 0), next, 0, true), [], SessionPool.RunCapability(0),
                      PoolWith(InCall(SessionPool.Sending(false, 0, true), [], 1), next, 0, true));
    steps := PoolStep(steps, PoolWith(InCall(SessionPool.Sending(false, 0, true), [], 1), next, 0, true), done,
                      SessionPool.Answered(0, SessionPool.Reply.Value(0, 7)),
                      PoolWith(InCall(SessionPool.Leaving(SessionPool.Returned(7)), log, 1), next, 0, true));
    steps := PoolStep(steps, PoolWith(InCall(SessionPool.Leaving(SessionPool.Returned(7)), log, 1), next, 0, true), done,
                      SessionPool.Release(0), PoolWith(FIRST_DONE, next, 1, true));
  }

  lemma SecondSent() returns (steps: seq<Step>)
    ensures Run(steps) == Served(PoolWith(FIRST_DONE, InCall(SessionPool.Sending(false, 0, false), [], 0), 0, true), [Execution(0, "f")])
  {
    hide Run;
    var d, one := FIRST_DONE, [Execution(0, "f")];
    steps := FirstServed();
    steps := PoolStep(steps, PoolWith(d, SessionPool.Arrived("w", 0), 1, true), one, SessionPool.GetOrAdd(1),
                      PoolWith(d, SessionPool.Queued("w", 0, 0), 1, true));
    steps := PoolStep(steps, PoolWith(d, SessionPool.Queued("w", 0, 0), 1, true), one, SessionPool.Enter(1),
                      PoolWith(d, InCall(SessionPool.Phase.Check, [], 0), 0, true));
    steps := PoolStep(steps, PoolWith(d, InCall(SessionPool.Phase.Check, [], 0), 0, true), one, SessionPool.Decide(1),
                      PoolWith(d, InCall(SessionPool.Sending(false, 0, false), [], 0), 0, true));
  }

  lemma BothServed() returns (steps: seq<Step>)
    ensures Run(steps) == Served(PoolWith(FIRST_DONE, SECOND_DONE, 1, true), [Execution(0, "f"), Execution(1, "f")])
  {
    hide Run;
    var log, one, both := [SessionPool.Attempt(0, SessionPool.Reply.Value(0, 8), true)], [Execution(0, "f")],
      [Execution(0, "f"), Execution(1, "f")];
    var d := FIRST_DONE;
    assert one + [Execution(1, "f")] == both && [] + log == log;
    steps := SecondSent();
    steps := PoolStep(steps, PoolWith(d, InCall(SessionPool.Sending(false, 0, false), [], 0), 0, true), one, SessionPool.RunCapability(1),
                      PoolWith(d, InCall(SessionPool.Sending(false, 0, true), [], 1), 0, true));
    steps := PoolStep(steps, PoolWith(d, InCall(SessionPool.Sending(false, 0, true), [], 1), 0, true), both,
                      SessionPool.Answered(1, SessionPool.Reply.Value(0, 8)),
                      PoolWith(d, InCall(SessionPool.Leaving(SessionPool.Returned(8)), log, 1), 0, true));
    steps := PoolStep(steps, PoolWith(d, InCall(SessionPool.Leaving(SessionPool.Returned(8)), log, 1), 0, true), both,
                      SessionPool.Release(1), PoolWith(d, SECOND_DONE, 1, true));
  }

  /** Both are answered, and the second answer overtakes the first: its bytes are lost, although the capability has run. */
  lemma ReplyOvertaken() returns (steps: seq<Step>)
    ensures var b := Run(steps);
      && b.requests == Asked(Done(0, 7, 0), Lost(1, 8, 1)) && b.executed == [Execution(0, "f"), Execution(1, "f")]
  {
    hide Run;
    var b;
    steps := BothServed();
    steps, b := Extend(steps, Run(steps), Reply(0));
    assert b.requests == Asked(Replying(0, 7, 0), Pooled(1)) && b.down == map["app" := Lane(1, 0, [])];
    steps, b := Extend(steps, b, Reply(1));
    assert b.requests == Asked(Replying(0, 7, 0), Replying(1, 8, 1)) && b.down == map["app" := Lane(2, 0, [])];
    steps, b := Extend(steps, b, Deliver(1));
    assert [] + [1] == [1];
    assert b.requests == Asked(Replying(0, 7, 0), Lost(1, 8, 1)) && b.down == map["app" := Lane(2, 0, [1])];
    steps, b := Extend(steps, b, Deliver(0));
    assert b.requests == Asked(Done(0, 7, 0), Lost(1, 8, 1));
  }
}

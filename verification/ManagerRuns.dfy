/** Supervisor and session pool together: calls take their workers from the registry, processes announce the address they
    listen at, and a connection succeeds only with a process that listens there and holds the key. */
module ManagerRuns {
  import opened JsMaps
  import Supervisor
  import SessionPool

  type Pid = Supervisor.Pid
  type Address = SessionPool.Address

  /** A registered worker is the object that its start has made, so both sides name it by the number of the start.
      `addresses` tells where each process listens; `read` remembers which process was announced when a call last read
      the address to connect to. */
  datatype Manager = Manager(supervisor: Supervisor.State, pool: SessionPool.Pool, addresses: seq<Address>, read: map<nat, Pid>)

  datatype Step =
    | Supervise(step: Supervisor.Step, address: Address)
    | InPool(call: SessionPool.Step)

  const EMPTY := Manager(Supervisor.EMPTY, SessionPool.EMPTY, [], map[])

  /** The process that a worker's record names as announced. */
  function AnnouncedPid(s: Supervisor.State, w: nat): Option<Pid> {
    if w < |s.workers| && s.workers[w].record.Some? then Some(s.workers[w].record.value.announced) else None
  }

  /** The key that a connection for this record uses. */
  function KeyFor(s: Supervisor.State, w: nat): Supervisor.Psk
    requires w < |s.workers|
  {
    s.workers[w].psk
  }

  /** A running process listens at this address and holds this key. */
  ghost predicate Reachable(m: Manager, address: Address, psk: Supervisor.Psk) {
    exists pid :: 0 <= pid < |m.supervisor.processes| && pid < |m.addresses| && Listens(m, pid, address, psk)
  }

  predicate Listens(m: Manager, pid: nat, address: Address, psk: Supervisor.Psk)
    requires pid < |m.supervisor.processes| && pid < |m.addresses|
  {
    m.supervisor.processes[pid] == Supervisor.Process(psk, true) && m.addresses[pid] == address
  }

  /** What may happen in the pool next to this supervisor. */
  ghost predicate Possible(m: Manager, step: SessionPool.Step) {
    match step
    // Announcements come from the supervisor only.
    case Restart(_, _) => false
    // The caller has found the worker in the registry.
    case Arrive(name, record) => name in m.supervisor.registry && m.supervisor.registry[name] == record
    case Connected(c, true) =>
      SessionPool.IsConnecting(m.pool, c) && m.pool.callers[c].record < |m.supervisor.workers|
      && Reachable(m, m.pool.callers[c].phase.target, KeyFor(m.supervisor, m.pool.callers[c].record))
    case _ => true
  }

  /** What the call, if any, has read of the announcement. */
  function Noted(m: Manager, after: SessionPool.Pool, step: SessionPool.Step): map<nat, Pid> {
    var actor := SessionPool.Actor(step);
    if actor.Some? && !SessionPool.IsConnecting(m.pool, actor.value) && SessionPool.IsConnecting(after, actor.value)
       && AnnouncedPid(m.supervisor, after.callers[actor.value].record).Some?
    then m.read[actor.value := AnnouncedPid(m.supervisor, after.callers[actor.value].record).value]
    else m.read
  }

  ghost function Next(m: Manager, step: Step): Manager {
    match step
    case Supervise(s, address) =>
      var after := Supervisor.Next(m.supervisor, s);
      var addresses := if |after.processes| > |m.supervisor.processes| then m.addresses + [address] else m.addresses;
      var announces := s.Announce? && AnnouncedPid(after, s.w) != AnnouncedPid(m.supervisor, s.w);
      var pool :=
        if announces && AnnouncedPid(after, s.w).Some? && AnnouncedPid(after, s.w).value < |addresses|
        then SessionPool.Next(m.pool, SessionPool.Step.Restart(s.w, addresses[AnnouncedPid(after, s.w).value]))
        else m.pool;
      Manager(after, pool, addresses, m.read)
    case InPool(s) =>
      if !Possible(m, s) then m
      else
        var pool := SessionPool.Next(m.pool, s);
        m.(pool := pool, read := Noted(m, pool, s))
  }

  ghost function Run(steps: seq<Step>): Manager {
    if steps == [] then EMPTY else Next(Run(steps[..|steps| - 1]), steps[|steps| - 1])
  }

  // ----- both sides are runs of their own -----

  lemma SupervisorMore(inner: seq<Supervisor.Step>, s: Supervisor.Step) returns (more: seq<Supervisor.Step>)
    ensures Supervisor.Run(Supervisor.EMPTY, more) == Supervisor.Next(Supervisor.Run(Supervisor.EMPTY, inner), s)
  {
    more := inner + [s];
    Supervisor.RunLast(inner, s);
  }

  /** The supervisor's side of a run is a run of the supervisor: everything proved of those holds here. */
  lemma {:induction false} SupervisorRun(steps: seq<Step>) returns (inner: seq<Supervisor.Step>)
    ensures Run(steps).supervisor == Supervisor.Run(Supervisor.EMPTY, inner)
  {
    hide Supervisor.Next, SessionPool.Next, Supervisor.Run, Possible, Noted;
    if steps == [] {
      inner := [];
      Supervisor.RunNothing(Supervisor.EMPTY);
    } else {
      var l := |steps| - 1;
      inner := SupervisorRun(steps[..l]);
      if steps[l].Supervise? { inner := SupervisorMore(inner, steps[l].step); }
    }
  }

  lemma PoolMore(p: SessionPool.Pool, inner: seq<SessionPool.Step>, s: SessionPool.Step) returns (more: seq<SessionPool.Step>)
    requires SessionPool.Run(SessionPool.EMPTY, inner) == p
    ensures SessionPool.Run(SessionPool.EMPTY, more) == SessionPool.Next(p, s)
  {
    var q;
    more, q := SessionPool.Extend(SessionPool.EMPTY, inner, p, s);
  }

  lemma PoolNext(m: Manager, step: Step) returns (s: Option<SessionPool.Step>)
    ensures Next(m, step).pool == if s.Some? then SessionPool.Next(m.pool, s.value) else m.pool
  {
    hide Supervisor.Next, SessionPool.Next, Possible, Noted;
    if step.Supervise? {
      var after := Next(m, step);
      var w := if step.step.Announce? then step.step.w else 0;
      var pid := AnnouncedPid(after.supervisor, w);
      if after.pool == m.pool { s := None; } else { s := Some(SessionPool.Step.Restart(w, after.addresses[pid.value])); }
    } else if Possible(m, step.call) {
      s := Some(step.call);
    } else {
      s := None;
    }
  }

  /** So is the pool's side. */
  lemma {:induction false} PoolRun(steps: seq<Step>) returns (inner: seq<SessionPool.Step>)
    ensures Run(steps).pool == SessionPool.Run(SessionPool.EMPTY, inner)
  {
    hide Next, SessionPool.Next;
    if steps == [] {
      inner := [];
    } else {
      var l := |steps| - 1;
      var before := Run(steps[..l]);
      inner := PoolRun(steps[..l]);
      var s := PoolNext(before, steps[l]);
      if s.Some? { inner := PoolMore(before.pool, inner, s.value); }
    }
  }

  // ----- which key goes to which address -----

  /** What is announced for a worker is the address of the process that its record names. */
  ghost predicate Announces(m: Manager) {
    && |m.addresses| == |m.supervisor.processes|
    && forall w :: 0 <= w < |m.supervisor.workers| && m.supervisor.workers[w].record.Some? ==> AnnouncedRight(m, w)
  }

  predicate AnnouncedRight(m: Manager, w: nat)
    requires w < |m.supervisor.workers| && m.supervisor.workers[w].record.Some?
  {
    var pid := m.supervisor.workers[w].record.value.announced;
    pid < |m.addresses| && SessionPool.Announced(m.pool, w) == m.addresses[pid]
  }

  /** Calls hold workers that have been registered under their name. */
  ghost predicate Callers(m: Manager) {
    forall c :: 0 <= c < |m.pool.callers| ==> Held(m, m.pool.callers[c])
  }

  predicate Held(m: Manager, caller: SessionPool.Caller) {
    && caller.record < |m.supervisor.workers|
    && m.supervisor.workers[caller.record].record.Some? && m.supervisor.workers[caller.record].name == caller.name
  }

  /** A connecting call goes to the process that was announced when it read the address, with the key of that process. */
  ghost predicate Aimed(m: Manager) {
    forall c :: 0 <= c < |m.pool.callers| && SessionPool.IsConnecting(m.pool, c) ==> AimedAt(m, c)
  }

  predicate AimedAt(m: Manager, c: nat)
    requires SessionPool.IsConnecting(m.pool, c)
  {
    var x := m.pool.callers[c];
    && c in m.read && x.record < |m.supervisor.workers|
    && m.read[c] < |m.addresses| && m.addresses[m.read[c]] == x.phase.target
    && Supervisor.LaunchedWith(m.supervisor, m.read[c], KeyFor(m.supervisor, x.record))
  }

  ghost predicate Sound(m: Manager) { Announces(m) && Callers(m) && Aimed(m) }

  /** What the two sides know by themselves. */
  ghost predicate Grounded(m: Manager) {
    && (forall w :: 0 <= w < |m.supervisor.workers| ==>
          Supervisor.Keyed(m.supervisor, m.supervisor.workers[w]) && Supervisor.Known(m.supervisor, m.supervisor.workers[w]))
    && Supervisor.Filed(m.supervisor) && SessionPool.Gates(m.pool)
  }

  lemma RunGrounded(steps: seq<Step>)
    ensures Grounded(Run(steps))
  {
    hide Run, Supervisor.Run, SessionPool.Run, Supervisor.Keyed, Supervisor.Known, Supervisor.Ended, Supervisor.Filed,
      SessionPool.Gates, SessionPool.Held;
    var inner := SupervisorRun(steps);
    var calls := PoolRun(steps);
    Supervisor.RunFiled(inner);
    SessionPool.NothingHeld();
    SessionPool.RunGates(SessionPool.EMPTY, calls);
    var m := Run(steps);
    forall w | 0 <= w < |m.supervisor.workers|
      ensures Supervisor.Keyed(m.supervisor, m.supervisor.workers[w]) && Supervisor.Known(m.supervisor, m.supervisor.workers[w])
    {
      Supervisor.RunKeyed(inner, w);
    }
  }

  /** A supervisor step changes the announced process of one worker at most, and starts one process at most. */
  lemma SupervisorStep(s: Supervisor.State, step: Supervisor.Step, w: nat)
    requires w < |s.workers| ==> Supervisor.Known(s, s.workers[w])
    ensures var after := Supervisor.Next(s, step);
      && |s.processes| <= |after.processes| <= |s.processes| + 1 && |s.workers| <= |after.workers|
      && (w >= |s.workers| && w < |after.workers| ==> after.workers[w].record == None)
      && (AnnouncedPid(after, w) != AnnouncedPid(s, w) ==>
            step.Announce? && step.w == w && AnnouncedPid(after, w).Some? && AnnouncedPid(after, w).value < |s.processes|)
  {
    hide Supervisor.Next, Supervisor.Known, AnnouncedPid;
    if step.Start? || step.Launch? || step.Announce? { SupervisorUp(s, step, w); } else { SupervisorElse(s, step, w); }
  }

  lemma SupervisorUp(s: Supervisor.State, step: Supervisor.Step, w: nat)
    requires (w < |s.workers| ==> Supervisor.Known(s, s.workers[w])) && (step.Start? || step.Launch? || step.Announce?)
    ensures var after := Supervisor.Next(s, step);
      && |s.processes| <= |after.processes| <= |s.processes| + 1 && |s.workers| <= |after.workers|
      && (w >= |s.workers| && w < |after.workers| ==> after.workers[w].record == None)
      && (AnnouncedPid(after, w) != AnnouncedPid(s, w) ==>
            step.Announce? && step.w == w && AnnouncedPid(after, w).Some? && AnnouncedPid(after, w).value < |s.processes|)
  {
  }

  lemma SupervisorElse(s: Supervisor.State, step: Supervisor.Step, w: nat)
    requires !step.Start? && !step.Launch? && !step.Announce?
    ensures var after := Supervisor.Next(s, step);
      |after.processes| == |s.processes| && |after.workers| == |s.workers| && AnnouncedPid(after, w) == AnnouncedPid(s, w)
  {
    hide Supervisor.Next, AnnouncedPid;
    if step.Verified? || step.GiveUp? || step.Handle? { SupervisorDown(s, step, w); } else { SupervisorRest(s, step, w); }
  }

  lemma SupervisorDown(s: Supervisor.State, step: Supervisor.Step, w: nat)
    requires step.Verified? || step.GiveUp? || step.Handle?
    ensures var after := Supervisor.Next(s, step);
      |after.processes| == |s.processes| && |after.workers| == |s.workers| && AnnouncedPid(after, w) == AnnouncedPid(s, w)
  {
  }

  lemma SupervisorRest(s: Supervisor.State, step: Supervisor.Step, w: nat)
    requires step.Exit? || step.Wake? || step.Stop? || step.StopEnds?
    ensures var after := Supervisor.Next(s, step);
      |after.processes| == |s.processes| && |after.workers| == |s.workers| && AnnouncedPid(after, w) == AnnouncedPid(s, w)
  {
  }

  lemma SuperviseAnnounces(m: Manager, step: Step)
    requires Announces(m) && Grounded(m) && step.Supervise?
    ensures Announces(Next(m, step))
  {
    hide Supervisor.Next, SessionPool.Next, Supervisor.Keyed, Supervisor.Known, Supervisor.Filed, SessionPool.Gates, Noted, Possible;
    var m' := Next(m, step);
    SupervisorStep(m.supervisor, step.step, 0);
    forall w | 0 <= w < |m'.supervisor.workers| && m'.supervisor.workers[w].record.Some?
      ensures AnnouncedRight(m', w)
    {
      SupervisorStep(m.supervisor, step.step, w);
      Announcing(m, step, w);
    }
  }

  lemma Announcing(m: Manager, step: Step, w: nat)
    requires Announces(m) && step.Supervise? && w < |Next(m, step).supervisor.workers| && AnnouncedPid(Next(m, step).supervisor, w).Some?
    requires var after := Supervisor.Next(m.supervisor, step.step);
      && |m.supervisor.processes| <= |after.processes| <= |m.supervisor.processes| + 1
      && (w >= |m.supervisor.workers| ==> after.workers[w].record == None)
      && (AnnouncedPid(after, w) != AnnouncedPid(m.supervisor, w) ==>
            step.step.Announce? && step.step.w == w && AnnouncedPid(after, w).Some?
              && AnnouncedPid(after, w).value < |m.supervisor.processes|)
    ensures AnnouncedRight(Next(m, step), w)
  {
    hide Supervisor.Next, Noted, Possible, SessionPool.Reconnect, SessionPool.NeedsConnection, SessionPool.Unusable;
    if AnnouncedPid(Next(m, step).supervisor, w) == AnnouncedPid(m.supervisor, w) { assert AnnouncedRight(m, w); }
  }

  /** A pool step announces nothing, and keeps name and worker of every call. */
  lemma PoolStep(p: SessionPool.Pool, step: SessionPool.Step, c: nat)
    requires !step.Restart? && c < |SessionPool.Next(p, step).callers|
    ensures SessionPool.Next(p, step).announced == p.announced
    ensures var x := SessionPool.Next(p, step).callers[c];
      if c < |p.callers| then x.record == p.callers[c].record && x.name == p.callers[c].name
      else step.Arrive? && x.record == step.record && x.name == step.name
  {
    hide SessionPool.Reconnect, SessionPool.NeedsConnection, SessionPool.Unusable;
  }

  lemma PoolAnnounced(p: SessionPool.Pool, step: SessionPool.Step)
    requires !step.Restart?
    ensures SessionPool.Next(p, step).announced == p.announced
  {
    hide SessionPool.Reconnect, SessionPool.NeedsConnection, SessionPool.Unusable;
  }

  lemma CallAnnounces(m: Manager, step: Step)
    requires Announces(m) && step.InPool?
    ensures Announces(Next(m, step))
  {
    hide SessionPool.Next, Noted;
    if Possible(m, step.call) {
      PoolAnnounced(m.pool, step.call);
      var m' := Next(m, step);
      forall w | 0 <= w < |m'.supervisor.workers| && m'.supervisor.workers[w].record.Some?
        ensures AnnouncedRight(m', w)
      {
        assert AnnouncedRight(m, w);
      }
    }
  }

  /** A supervisor step leaves the calls of the pool alone. */
  lemma SuperviseCalls(m: Manager, step: Step)
    requires step.Supervise?
    ensures Next(m, step).pool.callers == m.pool.callers && Next(m, step).pool.entries == m.pool.entries
    ensures Next(m, step).supervisor == Supervisor.Next(m.supervisor, step.step) && Next(m, step).read == m.read
    ensures m.addresses <= Next(m, step).addresses
  {
    hide Supervisor.Next, Noted, Possible, SessionPool.Reconnect, SessionPool.NeedsConnection, SessionPool.Unusable;
  }

  lemma CallersStep(m: Manager, step: Step)
    requires Callers(m) && Grounded(m)
    ensures Callers(Next(m, step))
  {
    hide Supervisor.Next, SessionPool.Next, Supervisor.Keyed, Supervisor.Known, SessionPool.Gates, Noted, Reachable;
    var m' := Next(m, step);
    if step.Supervise? { SuperviseCalls(m, step); }
    forall c | 0 <= c < |m'.pool.callers|
      ensures Held(m', m'.pool.callers[c])
    {
      if step.Supervise? {
        assert Held(m, m.pool.callers[c]);
        Supervisor.Workers(m.supervisor, step.step, m.pool.callers[c].record);
      } else if Possible(m, step.call) {
        PoolStep(m.pool, step.call, c);
        if c < |m.pool.callers| { assert Held(m, m.pool.callers[c]); }
      } else {
        assert Held(m, m.pool.callers[c]);
      }
    }
  }

  /** Only its own step makes a call connect. */
  lemma NowConnecting(p: SessionPool.Pool, step: SessionPool.Step, c: nat)
    requires SessionPool.Gates(p) && SessionPool.IsConnecting(SessionPool.Next(p, step), c) && !SessionPool.IsConnecting(p, c)
    ensures SessionPool.Actor(step) == Some(c) && c < |p.callers|
  {
    hide SessionPool.Reconnect, SessionPool.NeedsConnection, SessionPool.Unusable;
  }

  lemma AimedCall(m: Manager, step: Step, c: nat)
    requires Sound(m) && Grounded(m) && step.InPool? && Possible(m, step.call) && SessionPool.IsConnecting(Next(m, step).pool, c)
    ensures AimedAt(Next(m, step), c)
  {
    hide SessionPool.Next, Possible, SessionPool.IsConnecting, SessionPool.Announced, SessionPool.Gates, Supervisor.Filed, Supervisor.Known;
    var p, p' := m.pool, SessionPool.Next(m.pool, step.call);
    SessionPool.ConnectingIs(p', c);
    EntryThere(p, c);
    SessionPool.ConnectingStep(p, step.call, c);
    PossibleIs(m, step.call);
    PoolStep(p, step.call, c);
    if SessionPool.IsConnecting(p, c) {
      SessionPool.ConnectingIs(p, c);
      assert AimedAt(m, c);
    } else {
      NowConnecting(p, step.call, c);
      assert Held(m, p.callers[c]);
      assert AnnouncedRight(m, p'.callers[c].record);
    }
  }

  lemma PossibleIs(m: Manager, step: SessionPool.Step)
    requires Possible(m, step)
    ensures !step.Restart?
  {
  }

  lemma EntryThere(p: SessionPool.Pool, c: nat)
    requires SessionPool.Gates(p)
    ensures c < |p.callers| && SessionPool.HasEntry(p.callers[c]) ==> p.callers[c].entry < |p.entries|
  {
  }

  lemma AimedSupervise(m: Manager, step: Step, c: nat)
    requires Sound(m) && step.Supervise? && SessionPool.IsConnecting(Next(m, step).pool, c)
    ensures AimedAt(Next(m, step), c)
  {
    hide Supervisor.Next, SessionPool.Next, Noted, Possible, Next;
    SuperviseCalls(m, step);
    assert SessionPool.IsConnecting(m.pool, c);
    assert AimedAt(m, c);
    var x := m.pool.callers[c];
    Supervisor.Workers(m.supervisor, step.step, x.record);
    Supervisor.Processes(m.supervisor, step.step);
  }

  lemma SoundStep(m: Manager, step: Step)
    requires Sound(m) && Grounded(m)
    ensures Sound(Next(m, step))
  {
    hide Next, Announces, Callers, AimedAt, Grounded, SessionPool.IsConnecting, Possible, Held;
    CallersStep(m, step);
    if step.Supervise? { SuperviseAnnounces(m, step); } else { CallAnnounces(m, step); }
    var m' := Next(m, step);
    forall c | 0 <= c < |m'.pool.callers| && SessionPool.IsConnecting(m'.pool, c)
      ensures AimedAt(m', c)
    {
      if step.Supervise? { AimedSupervise(m, step, c); }
      else if Possible(m, step.call) { AimedCall(m, step, c); }
      else { Impossible(m, step); }
    }
  }

  lemma Impossible(m: Manager, step: Step)
    requires step.InPool? && !Possible(m, step.call)
    ensures Next(m, step) == m
  {
  }

  lemma {:induction false} RunSound(steps: seq<Step>)
    ensures Sound(Run(steps))
  {
    if steps != [] {
      hide Sound, Grounded, Next;
      RunSound(steps[..|steps| - 1]);
      RunGrounded(steps[..|steps| - 1]);
      SoundStep(Run(steps[..|steps| - 1]), steps[|steps| - 1]);
    }
  }

  /** In every run, a connecting call goes to the address of the process that was announced when it read the address, with
      the key that this process was launched with; and whatever has happened since, that is also the key of the process
      announced for its worker now. */
  lemma KeyOfAnnounced(steps: seq<Step>, c: nat)
    requires SessionPool.IsConnecting(Run(steps).pool, c)
    ensures var m := Run(steps);
      var x := m.pool.callers[c];
      && x.record < |m.supervisor.workers| && m.supervisor.workers[x.record].name == x.name
      && c in m.read && m.read[c] < |m.addresses| && m.addresses[m.read[c]] == x.phase.target
      && Supervisor.LaunchedWith(m.supervisor, m.read[c], KeyFor(m.supervisor, x.record))
      && AnnouncedPid(m.supervisor, x.record).Some?
      && Supervisor.LaunchedWith(m.supervisor, AnnouncedPid(m.supervisor, x.record).value, KeyFor(m.supervisor, x.record))
  {
    hide Run, Next, SessionPool.IsConnecting, Announces, SessionPool.Gates, Supervisor.Filed, Supervisor.Known;
    RunSound(steps);
    RunGrounded(steps);
    var m := Run(steps);
    SessionPool.ConnectingIs(m.pool, c);
    assert AimedAt(m, c) && Held(m, m.pool.callers[c]);
  }

  /** Running processes listen at different addresses. */
  ghost predicate OwnAddresses(m: Manager) {
    forall p, q :: 0 <= p < q < |m.addresses| && Supervisor.Alive(m.supervisor, p) && Supervisor.Alive(m.supervisor, q) ==>
      m.addresses[p] != m.addresses[q]
  }

  /** A connection reaches the process that was announced if and only if that one still runs; otherwise it is a process
      with the same key that has got the same address. */
  lemma Reached(steps: seq<Step>, c: nat, pid: nat)
    requires var m := Run(steps);
      && SessionPool.IsConnecting(m.pool, c) && OwnAddresses(m) && m.pool.callers[c].record < |m.supervisor.workers|
      && pid < |m.supervisor.processes| && pid < |m.addresses|
      && Listens(m, pid, m.pool.callers[c].phase.target, KeyFor(m.supervisor, m.pool.callers[c].record))
    ensures var m := Run(steps); c in m.read && (pid == m.read[c] <==> Supervisor.Alive(m.supervisor, m.read[c]))
  {
    hide Run, SessionPool.IsConnecting;
    KeyOfAnnounced(steps, c);
  }

  /** Every start has made a key of its own. */
  ghost predicate OwnKeys(m: Manager) {
    forall v, w :: 0 <= v < w < |m.supervisor.workers| ==> m.supervisor.workers[v].psk != m.supervisor.workers[w].psk
  }

  /** The key is that of the process announced under the worker's name in the registry if and only if the registered worker
      is still the one that the call holds. */
  lemma KeyOfRegistered(steps: seq<Step>, c: nat)
    requires var m := Run(steps); SessionPool.IsConnecting(m.pool, c) && OwnKeys(m) && m.pool.callers[c].name in m.supervisor.registry
    ensures var m := Run(steps);
      var x := m.pool.callers[c];
      var w := m.supervisor.registry[x.name];
      && x.record < |m.supervisor.workers| && AnnouncedPid(m.supervisor, w).Some?
      && (w == x.record <==> Supervisor.LaunchedWith(m.supervisor, AnnouncedPid(m.supervisor, w).value, KeyFor(m.supervisor, x.record)))
  {
    hide Run, SessionPool.IsConnecting, SessionPool.Gates, Supervisor.Known;
    KeyOfAnnounced(steps, c);
    RunGrounded(steps);
    var m := Run(steps);
    SessionPool.ConnectingIs(m.pool, c);
    assert Supervisor.Keyed(m.supervisor, m.supervisor.workers[m.supervisor.registry[m.pool.callers[c].name]]);
  }

  lemma Extend(steps: seq<Step>, m: Manager, step: Step) returns (more: seq<Step>, after: Manager)
    requires Run(steps) == m
    ensures after == Next(m, step) && Run(more) == after
  {
    hide Next;
    more, after := steps + [step], Next(m, step);
    assert more[..|steps|] == steps;
  }

  /** A worker comes up. */
  lemma Comes(steps: seq<Step>, m: Manager, name: Supervisor.Name, psk: Supervisor.Psk, address: Address)
    returns (more: seq<Step>, after: Manager)
    requires Run(steps) == m && |m.addresses| == |m.supervisor.processes|
    ensures Run(more) == after
    ensures var w := |m.supervisor.workers|;
      && |after.supervisor.workers| == w + 1 && after.supervisor.workers[..w] == m.supervisor.workers
      && after.supervisor.workers[w].psk == psk && after.supervisor.registry == m.supervisor.registry[name := w]
      && after.supervisor.processes == m.supervisor.processes + [Supervisor.Process(psk, true)]
      && after.addresses == m.addresses + [address]
      && after.pool == m.pool.(announced := m.pool.announced[w := address])
  {
    hide Supervisor.Next, Run, Possible, Noted;
    var w := |m.supervisor.workers|;
    Supervisor.Risen(m.supervisor, name, psk);
    Supervisor.RisenSteps(m.supervisor, name, psk);
    var m1, m2, m3;
    more, m1 := Extend(steps, m, Supervise(Supervisor.Step.Start(name, psk), 0));
    assert m1.addresses == m.addresses && m1.pool == m.pool;
    more, m2 := Extend(more, m1, Supervise(Supervisor.Step.Verified(w, true), 0));
    assert m2.addresses == m.addresses && m2.pool == m.pool;
    more, m3 := Extend(more, m2, Supervise(Supervisor.Step.Launch(w), address));
    assert m3.addresses == m.addresses + [address] && m3.pool == m.pool;
    more, after := Extend(more, m3, Supervise(Supervisor.Step.Announce(w), 0));
  }

  /** A call waits inside while its worker is stopped and another one started under the same name; it connects with the old
      worker's key. */
  lemma StaleWorker() returns (steps: seq<Step>)
    ensures var m := Run(steps);
      && SessionPool.IsConnecting(m.pool, 0) && m.pool.callers[0].record == 0 && m.pool.callers[0].name == "w"
      && "w" in m.supervisor.registry && m.supervisor.registry["w"] == 1 && OwnKeys(m)
  {
    hide Run;
    var m;
    steps, m := UpAndInside();
    steps, m := Extend(steps, m, Supervise(Supervisor.Step.Stop("w"), 0));
    assert |m.supervisor.workers| == 1 && m.supervisor.workers[0].psk == 1 && |m.addresses| == |m.supervisor.processes|;
    steps, m := Comes(steps, m, "w", 2, 20);
    assert m.supervisor.workers[0] == m.supervisor.workers[..1][0];
    assert m.pool.callers == [SessionPool.Inside("w", 0, 0, SessionPool.Check, [], 0)];
    steps, m := Extend(steps, m, InPool(SessionPool.Step.Decide(0)));
  }

  lemma UpAndInside() returns (steps: seq<Step>, m: Manager)
    ensures Run(steps) == m && |m.addresses| == |m.supervisor.processes| == 1
    ensures |m.supervisor.workers| == 1 && m.supervisor.workers[0].psk == 1 && m.supervisor.registry == map["w" := 0]
    ensures m.pool.callers == [SessionPool.Inside("w", 0, 0, SessionPool.Check, [], 0)] && |m.pool.entries| == 1
      && m.pool.entries[0].client == None
  {
    hide Supervisor.Next, Run;
    steps, m := [], EMPTY;
    RunNothing();
    steps, m := Comes(steps, m, "w", 1, 10);
    assert m.supervisor.registry == map["w" := 0];
    steps, m := Extend(steps, m, InPool(SessionPool.Step.Arrive("w", 0)));
    assert m.pool.callers == [SessionPool.Arrived("w", 0)] && m.pool.entries == [] && m.pool.byWorker == map[];
    steps, m := Extend(steps, m, InPool(SessionPool.Step.GetOrAdd(0)));
    assert m.pool.callers == [SessionPool.Queued("w", 0, 0)] && m.pool.entries == [SessionPool.Entry("w", 1, None, None)];
    steps, m := Extend(steps, m, InPool(SessionPool.Step.Enter(0)));
  }

  lemma RunNothing()
    ensures Run([]) == EMPTY
  {
  }
}

/** The pool of warm worker sessions as a transition system: any number of calls, interleaved at
    every point where the code awaits, while workers restart and the pool may be disposed. */
module SessionPool {
  import opened JsMaps

  type Name = string
  type Address = nat

  /** A registered worker, as the object that calls hold on to. */
  type Record = nat

  /** A client object: its session, and the address it is connected to. */
  datatype Client = Client(session: nat, address: Address, disposed: bool)

  /** An entry of the pool: the permits of its gate, the warm client, and the address noted for it.
      `owner` is the worker it was made for. */
  datatype Entry = Entry(owner: Name, permits: nat, client: Option<Client>, address: Option<Address>)

  datatype Reply = Value(session: nat, value: nat) | AppError | Broken

  /** How one attempt, sent on `session`, was answered, and whether the worker ran the capability for it. */
  datatype Attempt = Attempt(session: nat, reply: Reply, ran: bool)

  datatype Outcome = Returned(value: nat) | Failed

  /** Where a call stands. `retry` tells the reconnect before the second attempt from the one before the first. */
  datatype Phase =
    | Check
    | Closing(retry: bool)
    | Connecting(retry: bool, target: Address)
    | Sending(second: bool, session: nat, ran: bool)
    | Leaving(outcome: Outcome)

  /** `log` remembers the attempts that have been answered, `runs` how often the worker ran the capability. */
  datatype Caller =
    | Arrived(name: Name, record: Record)
    | Queued(name: Name, record: Record, entry: nat)
    | Inside(name: Name, record: Record, entry: nat, phase: Phase, log: seq<Attempt>, runs: nat)
    | Finished(name: Name, record: Record, outcome: Outcome, log: seq<Attempt>, runs: nat)

  datatype Pool = Pool(byWorker: map<Name, nat>, entries: seq<Entry>, callers: seq<Caller>, announced: map<Record, Address>, sessions: nat)

  datatype Step =
    | Arrive(name: Name, record: Record)
    | GetOrAdd(c: nat)
    | Enter(c: nat)
    | Decide(c: nat)
    | Closed(c: nat)
    | Connected(c: nat, ok: bool)
    | RunCapability(c: nat)
    | RunLate(c: nat, i: nat)
    | Answered(c: nat, reply: Reply)
    | Release(c: nat)
    | Restart(record: Record, address: Address)
    | CloseClient(e: nat)
    | Clear

  const EMPTY := Pool(map[], [], [], map[], 0)

  function Announced(p: Pool, record: Record): Address { if record in p.announced then p.announced[record] else 0 }

  function With(p: Pool, c: nat, caller: Caller): Pool
    requires c < |p.callers|
  {
    p.(callers := p.callers[c := caller])
  }

  function WithEntry(p: Pool, e: nat, entry: Entry): Pool
    requires e < |p.entries|
  {
    p.(entries := p.entries[e := entry])
  }

  predicate InPhase(p: Pool, c: nat) { c < |p.callers| && p.callers[c].Inside? && p.callers[c].entry < |p.entries| }

  /** Reconnecting starts by closing the old client, if there is one. The address is read after that. */
  function Reconnect(p: Pool, c: nat, retry: bool): Phase
    requires InPhase(p, c)
  {
    if p.entries[p.callers[c].entry].client.Some? then Closing(retry) else Connecting(retry, Announced(p, p.callers[c].record))
  }

  /** No session yet, or the worker has announced another address than the one noted. */
  predicate NeedsConnection(p: Pool, c: nat)
    requires InPhase(p, c)
  {
    var entry := p.entries[p.callers[c].entry];
    entry.client == None || entry.address != Some(Announced(p, p.callers[c].record))
  }

  predicate Opens(session: nat, reply: Reply) { reply.Value? && reply.session == session }

  /** A reply that does not open on the session it was asked for is as good as none. */
  predicate Unusable(a: Attempt) { a.reply.Broken? || (a.reply.Value? && !Opens(a.session, a.reply)) }

  predicate Logs(caller: Caller) { caller.Inside? || caller.Finished? }

  function Next(p: Pool, step: Step): Pool {
    match step
    case Arrive(name, record) => p.(callers := p.callers + [Arrived(name, record)])
    case GetOrAdd(c) =>
      if c >= |p.callers| || !p.callers[c].Arrived? then p
      else
        var (name, record) := (p.callers[c].name, p.callers[c].record);
        if name in p.byWorker then With(p, c, Queued(name, record, p.byWorker[name]))
        else With(p, c, Queued(name, record, |p.entries|)).(byWorker := p.byWorker[name := |p.entries|],
          entries := p.entries + [Entry(name, 1, None, None)])
    case Enter(c) =>
      if c >= |p.callers| || !p.callers[c].Queued? || p.callers[c].entry >= |p.entries| || p.entries[p.callers[c].entry].permits == 0 then p
      else
        var e := p.callers[c].entry;
        WithEntry(With(p, c, Inside(p.callers[c].name, p.callers[c].record, e, Check, [], 0)), e,
          p.entries[e].(permits := p.entries[e].permits - 1))
    case Decide(c) =>
      if !InPhase(p, c) || p.callers[c].phase != Check then p
      else
        var entry := p.entries[p.callers[c].entry];
        With(p, c, p.callers[c].(phase :=
          if NeedsConnection(p, c) then Reconnect(p, c, false)
            else Sending(false, entry.client.value.session, false)))
    case Closed(c) =>
      if !InPhase(p, c) || !p.callers[c].phase.Closing? || p.entries[p.callers[c].entry].client == None then p
      else
        var e := p.callers[c].entry;
        var client := p.entries[e].client.value;
        WithEntry(With(p, c, p.callers[c].(phase := Connecting(p.callers[c].phase.retry, Announced(p, p.callers[c].record)))), e,
          p.entries[e].(client := Some(client.(disposed := true))))
    case Connected(c, ok) =>
      if !InPhase(p, c) || !p.callers[c].phase.Connecting? then p
      else if !ok then With(p, c, p.callers[c].(phase := Leaving(Failed)))
      else
        var e := p.callers[c].entry;
        var client := Client(p.sessions, p.callers[c].phase.target, false);
        // The address is read a second time to be noted.
        WithEntry(With(p, c, p.callers[c].(phase := Sending(p.callers[c].phase.retry, p.sessions, false))), e,
          p.entries[e].(client := Some(client), address := Some(Announced(p, p.callers[c].record)))).(sessions := p.sessions + 1)
    case RunCapability(c) =>
      if !InPhase(p, c) || !p.callers[c].phase.Sending? || p.callers[c].phase.ran then p
      else With(p, c, p.callers[c].(phase := p.callers[c].phase.(ran := true), runs := p.callers[c].runs + 1))
    // The worker may still be at a request whose answer got lost, or not have got it yet.
    case RunLate(c, i) =>
      if c >= |p.callers| || !Logs(p.callers[c]) || i >= |p.callers[c].log| || !Unusable(p.callers[c].log[i])
        || p.callers[c].log[i].ran then p
      else
        var log := p.callers[c].log;
        With(p, c, p.callers[c].(log := log[i := log[i].(ran := true)], runs := p.callers[c].runs + 1))
    // Only a worker that ran the capability has sealed a value.
    case Answered(c, reply) =>
      if !InPhase(p, c) || !p.callers[c].phase.Sending? || (Opens(p.callers[c].phase.session, reply) && !p.callers[c].phase.ran) then p
      else
        var caller := p.callers[c];
        var a := Attempt(caller.phase.session, reply, caller.phase.ran);
        With(p, c, caller.(log := caller.log + [a], phase :=
          if Unusable(a) then (if caller.phase.second then Leaving(Failed) else Reconnect(p, c, true))
          else if reply.Value? then Leaving(Returned(reply.value))
          else Leaving(Failed)))
    case Release(c) =>
      if !InPhase(p, c) || !p.callers[c].phase.Leaving? then p
      else
        var e := p.callers[c].entry;
        var caller := p.callers[c];
        WithEntry(With(p, c, Finished(caller.name, caller.record, caller.phase.outcome, caller.log, caller.runs)), e,
          p.entries[e].(permits := p.entries[e].permits + 1))
    case Restart(record, address) => p.(announced := p.announced[record := address])
    // DisposeAsync of the pool goes through the entries and clears the table without asking for any gate.
    case CloseClient(e) =>
      if e >= |p.entries| || p.entries[e].client == None then p
      else WithEntry(p, e, p.entries[e].(client := Some(p.entries[e].client.value.(disposed := true))))
    case Clear => p.(byWorker := map[])
  }

  function Run(p: Pool, steps: seq<Step>): Pool {
    if steps == [] then p else Next(Run(p, steps[..|steps| - 1]), steps[|steps| - 1])
  }

  // ----- gates -----

  predicate HasEntry(caller: Caller) { caller.Queued? || caller.Inside? }

  /** One permit per entry: either it is there, or exactly one call has it. */
  ghost predicate Gates(p: Pool) {
    && (forall name :: name in p.byWorker ==> p.byWorker[name] < |p.entries| && p.entries[p.byWorker[name]].owner == name)
    && (forall c :: 0 <= c < |p.callers| && HasEntry(p.callers[c]) ==>
          p.callers[c].entry < |p.entries| && p.entries[p.callers[c].entry].owner == p.callers[c].name)
    && (forall e :: 0 <= e < |p.entries| ==> p.entries[e].permits <= 1)
    && (forall c :: 0 <= c < |p.callers| && p.callers[c].Inside? ==> p.entries[p.callers[c].entry].permits == 0)
    && (forall c, d :: 0 <= c < d < |p.callers| && p.callers[c].Inside? && p.callers[d].Inside? ==>
          p.callers[c].entry != p.callers[d].entry)
  }

  predicate Holds(caller: Caller, e: nat) { caller.Inside? && caller.entry == e }

  ghost predicate Held(p: Pool) {
    forall e :: 0 <= e < |p.entries| && p.entries[e].permits == 0 ==> HolderOf(p, e)
  }

  ghost predicate HolderOf(p: Pool, e: nat) {
    exists c :: 0 <= c < |p.callers| && Holds(p.callers[c], e)
  }

  lemma GatesOutside(p: Pool, step: Step)
    requires Gates(p) && (step.Arrive? || step.Restart? || step.CloseClient? || step.Clear?)
    ensures Gates(Next(p, step))
  {
    hide Reconnect, NeedsConnection, Unusable;
  }

  lemma GatesAdd(p: Pool, c: nat)
    requires Gates(p)
    ensures Gates(Next(p, GetOrAdd(c)))
  {
    hide Reconnect, NeedsConnection, Unusable;
  }

  lemma GatesPass(p: Pool, step: Step)
    requires Gates(p) && (step.Enter? || step.Release?)
    ensures Gates(Next(p, step))
  {
    hide Reconnect, NeedsConnection, Unusable;
  }

  lemma GatesInside(p: Pool, step: Step)
    requires Gates(p) && (step.Decide? || step.Closed? || step.Connected? || step.RunCapability? || step.RunLate? || step.Answered?)
    ensures Gates(Next(p, step))
  {
    hide Next, Gates;
    InsideAlike(p, step);
    AlikeGates(p, Next(p, step));
  }

  /** Nothing that the gates depend on differs. */
  ghost predicate Alike(p: Pool, q: Pool) {
    && p.byWorker == q.byWorker && |p.callers| == |q.callers| && |p.entries| == |q.entries|
    && (forall c :: 0 <= c < |p.callers| ==>
          && p.callers[c].name == q.callers[c].name && (p.callers[c].Inside? <==> q.callers[c].Inside?)
          && (HasEntry(p.callers[c]) <==> HasEntry(q.callers[c]))
          && (HasEntry(p.callers[c]) ==> p.callers[c].entry == q.callers[c].entry))
    && (forall e :: 0 <= e < |p.entries| ==> p.entries[e].owner == q.entries[e].owner && p.entries[e].permits == q.entries[e].permits)
  }

  lemma InsideAlike(p: Pool, step: Step)
    requires step.Decide? || step.Closed? || step.Connected? || step.RunCapability? || step.RunLate? || step.Answered?
    ensures Alike(p, Next(p, step))
  {
    hide Next, Alike;
    if step.Closed? || step.Connected? { ConnectAlike(p, step); } else { CallAlike(p, step); }
  }

  lemma ConnectAlike(p: Pool, step: Step)
    requires step.Closed? || step.Connected?
    ensures Alike(p, Next(p, step))
  {
    hide Reconnect, NeedsConnection, Unusable;
  }

  lemma CallAlike(p: Pool, step: Step)
    requires step.Decide? || step.RunCapability? || step.RunLate? || step.Answered?
    ensures Alike(p, Next(p, step))
  {
    hide Reconnect, NeedsConnection, Unusable;
  }

  lemma AlikeGates(p: Pool, q: Pool)
    requires Gates(p) && Alike(p, q)
    ensures Gates(q)
  {
  }

  lemma GatesStep(p: Pool, step: Step)
    requires Gates(p)
    ensures Gates(Next(p, step))
  {
    hide Gates, Next;
    match step
    case Enter(_) => GatesPass(p, step);
    case Release(_) => GatesPass(p, step);
    case Decide(_) => GatesInside(p, step);
    case Closed(_) => GatesInside(p, step);
    case Connected(_, _) => GatesInside(p, step);
    case RunCapability(_) => GatesInside(p, step);
    case RunLate(_, _) => GatesInside(p, step);
    case Answered(_, _) => GatesInside(p, step);
    case GetOrAdd(c) => GatesAdd(p, c);
    case _ => GatesOutside(p, step);
  }

  lemma HeldStep(p: Pool, step: Step)
    requires Gates(p) && Held(p)
    ensures Held(Next(p, step))
  {
    hide Reconnect, NeedsConnection, Unusable, HolderOf;
    var p' := Next(p, step);
    forall e | 0 <= e < |p'.entries| && p'.entries[e].permits == 0
      ensures HolderOf(p', e)
    {
      HolderStays(p, step, e);
    }
  }

  lemma HolderStays(p: Pool, step: Step, e: nat)
    requires Gates(p) && Held(p) && e < |Next(p, step).entries| && Next(p, step).entries[e].permits == 0
    ensures HolderOf(Next(p, step), e)
  {
    hide Reconnect, NeedsConnection, Unusable, Gates;
    if e < |p.entries| && p.entries[e].permits == 0 {
      assert HolderOf(p, e);
      var c :| 0 <= c < |p.callers| && Holds(p.callers[c], e);
      StillHolds(p, step, e, c);
    } else {
      NowHolds(p, step, e);
    }
  }

  lemma StillHolds(p: Pool, step: Step, e: nat, c: nat)
    requires Gates(p) && e < |p.entries| && c < |p.callers| && Holds(p.callers[c], e)
    requires e < |Next(p, step).entries| && Next(p, step).entries[e].permits == 0
    ensures HolderOf(Next(p, step), e)
  {
    hide Next, Gates;
    Sizes(p, step);
    if step == Release(c) { LeavesOnRelease(p, e, c); } else { KeepsEntry(p, step, e, c); }
  }

  lemma LeavesOnRelease(p: Pool, e: nat, c: nat)
    requires e < |p.entries| && c < |p.callers| && Holds(p.callers[c], e) && Next(p, Release(c)).entries[e].permits == 0
    ensures HolderOf(Next(p, Release(c)), e)
  {
    assert Holds(Next(p, Release(c)).callers[c], e);
  }

  lemma KeepsEntry(p: Pool, step: Step, e: nat, c: nat)
    requires e < |p.entries| && c < |p.callers| && Holds(p.callers[c], e) && step != Release(c)
    ensures HolderOf(Next(p, step), e)
  {
    hide Reconnect, NeedsConnection, Unusable;
    assert Holds(Next(p, step).callers[c], e);
  }

  lemma NowHolds(p: Pool, step: Step, e: nat)
    requires Gates(p) && e < |Next(p, step).entries| && Next(p, step).entries[e].permits == 0
    requires e < |p.entries| ==> p.entries[e].permits != 0
    ensures HolderOf(Next(p, step), e)
  {
    hide Reconnect, NeedsConnection, Unusable;
    assert step.Enter? && Holds(Next(p, step).callers[step.c], e);
  }

  lemma {:induction false} RunGates(p: Pool, steps: seq<Step>)
    requires Gates(p) && Held(p)
    ensures Gates(Run(p, steps)) && Held(Run(p, steps))
  {
    if steps != [] {
      hide Gates, Held, Next;
      var q := Run(p, steps[..|steps| - 1]);
      RunGates(p, steps[..|steps| - 1]);
      GatesStep(q, steps[|steps| - 1]);
      HeldStep(q, steps[|steps| - 1]);
    }
  }

  /** Under every interleaving, each gate has one permit: it lies at the entry exactly when no call is
      inside, and two calls are never inside the same entry. */
  lemma OnePermit(steps: seq<Step>, e: nat)
    requires e < |Run(EMPTY, steps).entries|
    ensures var p := Run(EMPTY, steps);
      && p.entries[e].permits <= 1
      && (p.entries[e].permits == 0 <==> HolderOf(p, e))
      && (forall c, d :: 0 <= c < |p.callers| && 0 <= d < |p.callers| && Holds(p.callers[c], e) && Holds(p.callers[d], e) ==> c == d)
  {
    hide Next, Run;
    RunGates(EMPTY, steps);
  }

  // ----- workers -----

  predicate SameWorker(a: Caller, b: Caller) { a.Inside? && b.Inside? && a.name == b.name }

  /** At most one call per worker is inside. */
  ghost predicate Exclusive(p: Pool) {
    forall c, d :: 0 <= c < |p.callers| && 0 <= d < |p.callers| && SameWorker(p.callers[c], p.callers[d]) ==> c == d
  }

  /** Every call that has an entry has the one in the table. */
  ghost predicate Filed(p: Pool) {
    forall c :: 0 <= c < |p.callers| && HasEntry(p.callers[c]) ==>
      p.callers[c].name in p.byWorker && p.byWorker[p.callers[c].name] == p.callers[c].entry
  }

  ghost predicate Idle(p: Pool) {
    forall c :: 0 <= c < |p.callers| ==> !HasEntry(p.callers[c])
  }

  lemma FiledStep(p: Pool, step: Step)
    requires Filed(p) && (step.Clear? ==> Idle(p))
    ensures Filed(Next(p, step))
  {
    hide Reconnect, NeedsConnection, Unusable;
  }

  /** The pool is cleared only while no call has an entry. */
  ghost predicate QuietClears(p: Pool, steps: seq<Step>) {
    forall i :: 0 <= i < |steps| && steps[i].Clear? ==> Idle(Run(p, steps[..i]))
  }

  lemma QuietInit(p: Pool, steps: seq<Step>)
    requires QuietClears(p, steps) && steps != []
    ensures QuietClears(p, steps[..|steps| - 1]) && (steps[|steps| - 1].Clear? ==> Idle(Run(p, steps[..|steps| - 1])))
  {
    hide Run, Idle;
    var l := |steps| - 1;
    forall i | 0 <= i < l ensures steps[..l][..i] == steps[..i] {
    }
  }

  lemma {:induction false} RunFiled(p: Pool, steps: seq<Step>)
    requires Filed(p) && QuietClears(p, steps)
    ensures Filed(Run(p, steps))
  {
    if steps != [] {
      hide Filed, QuietClears, Idle, Next;
      QuietInit(p, steps);
      RunFiled(p, steps[..|steps| - 1]);
      FiledStep(Run(p, steps[..|steps| - 1]), steps[|steps| - 1]);
    }
  }

  /** Serialisation per worker, as long as the pool is disposed in quiet moments only. */
  lemma PerWorker(steps: seq<Step>)
    requires QuietClears(EMPTY, steps)
    ensures Exclusive(Run(EMPTY, steps))
  {
    hide QuietClears, Next, Run;
    RunGates(EMPTY, steps);
    RunFiled(EMPTY, steps);
  }

  /** Clearing the table under a call that has an entry is not safe: a later call for the same worker makes
      a second entry, with a gate of its own. */
  lemma ClearBreaks(p: Pool, c: nat) returns (steps: seq<Step>)
    requires Gates(p) && c < |p.callers| && p.callers[c].Inside?
    ensures !Exclusive(Run(Next(p, Clear), steps))
  {
    var (name, record) := (p.callers[c].name, p.callers[c].record);
    var d := |p.callers|;
    var p0 := Next(p, Clear);
    var p1 := Next(p0, Arrive(name, record));
    var p2 := Next(p1, GetOrAdd(d));
    var p3 := Next(p2, Enter(d));
    steps := [Arrive(name, record), GetOrAdd(d), Enter(d)];
    RunThree(p0, Arrive(name, record), GetOrAdd(d), Enter(d));
    assert p3.callers[c] == p.callers[c] && p3.callers[d].Inside?;
  }

  lemma RunThree(p: Pool, a: Step, b: Step, c: Step)
    ensures Run(p, [a, b, c]) == Next(Next(Next(p, a), b), c)
  {
    hide Next;
    assert [a][..0] == [] && Run(p, [a]) == Next(p, a);
    assert [a, b][..1] == [a] && Run(p, [a, b]) == Next(Next(p, a), b);
    assert [a, b, c][..2] == [a, b];
  }

  /** A waiting call is no better off: it gets in, then the table is cleared. */
  lemma ClearBreaksQueue(p: Pool, c: nat) returns (steps: seq<Step>)
    requires Gates(p) && Held(p) && c < |p.callers| && p.callers[c].Queued?
    ensures !Exclusive(Run(Next(p, Clear), steps))
  {
    hide Next, Run, Exclusive;
    var e := p.callers[c].entry;
    if p.entries[e].permits == 0 {
      assert HolderOf(p, e);
      var d :| 0 <= d < |p.callers| && Holds(p.callers[d], e);
      steps := ClearBreaks(p, d);
    } else {
      GatesStep(p, Enter(c));
      EnterFirst(p, c);
      var more := ClearBreaks(Next(p, Enter(c)), c);
      steps := [Enter(c)] + more;
      RunFirst(Next(p, Clear), Enter(c), more);
    }
  }

  lemma EnterFirst(p: Pool, c: nat)
    requires c < |p.callers| && p.callers[c].Queued? && p.callers[c].entry < |p.entries| && p.entries[p.callers[c].entry].permits > 0
    ensures c < |Next(p, Enter(c)).callers| && Next(p, Enter(c)).callers[c].Inside?
    ensures Next(Next(p, Enter(c)), Clear) == Next(Next(p, Clear), Enter(c))
  {
  }

  lemma {:induction false} RunFirst(p: Pool, a: Step, steps: seq<Step>)
    ensures Run(p, [a] + steps) == Run(Next(p, a), steps)
  {
    hide Next;
    if steps == [] {
      assert [a] + steps == [a] && [a][..0] == [];
    } else {
      var l := |steps| - 1;
      assert ([a] + steps)[..l + 1] == [a] + steps[..l];
      RunFirst(p, a, steps[..l]);
    }
  }

  // ----- one call at a time, other workers at the same time -----

  /** The call that takes a step, if any. */
  function Actor(step: Step): Option<nat> {
    match step
    case GetOrAdd(c) => Some(c)
    case Enter(c) => Some(c)
    case Decide(c) => Some(c)
    case Closed(c) => Some(c)
    case Connected(c, ok) => Some(c)
    case RunCapability(c) => Some(c)
    case RunLate(c, i) => Some(c)
    case Answered(c, reply) => Some(c)
    case Release(c) => Some(c)
    case _ => None
  }

  /** A step of one call touches no other call, and no entry but its own. */
  lemma Apart(p: Pool, step: Step, c: nat, d: nat, e: nat)
    requires Gates(p) && Actor(step) == Some(c) && c < |p.callers| && d < |p.callers| && d != c && e < |p.entries|
    requires HasEntry(p.callers[c]) ==> p.callers[c].entry != e
    ensures d < |Next(p, step).callers| && e < |Next(p, step).entries|
    ensures Next(p, step).callers[d] == p.callers[d] && Next(p, step).entries[e] == p.entries[e]
    ensures Next(p, step).announced == p.announced
  {
    hide Next, Gates;
    if step.Closed? || step.Connected? || step.Decide? || step.Answered? {
      ApartCalling(p, step, c, d, e);
    } else {
      ApartGoing(p, step, c, d, e);
    }
  }

  lemma ApartCalling(p: Pool, step: Step, c: nat, d: nat, e: nat)
    requires step.Closed? || step.Connected? || step.Decide? || step.Answered?
    requires Gates(p) && Actor(step) == Some(c) && c < |p.callers| && d < |p.callers| && d != c && e < |p.entries|
    requires HasEntry(p.callers[c]) ==> p.callers[c].entry != e
    ensures d < |Next(p, step).callers| && e < |Next(p, step).entries|
    ensures Next(p, step).callers[d] == p.callers[d] && Next(p, step).entries[e] == p.entries[e]
    ensures Next(p, step).announced == p.announced
  {
    hide Reconnect, NeedsConnection, Unusable;
  }

  lemma ApartGoing(p: Pool, step: Step, c: nat, d: nat, e: nat)
    requires !(step.Closed? || step.Connected? || step.Decide? || step.Answered?)
    requires Gates(p) && Actor(step) == Some(c) && c < |p.callers| && d < |p.callers| && d != c && e < |p.entries|
    requires HasEntry(p.callers[c]) ==> p.callers[c].entry != e
    ensures d < |Next(p, step).callers| && e < |Next(p, step).entries|
    ensures Next(p, step).callers[d] == p.callers[d] && Next(p, step).entries[e] == p.entries[e]
    ensures Next(p, step).announced == p.announced
  {
    hide Reconnect, NeedsConnection, Unusable;
  }

  /** What a step makes of the call that takes it and of its entry, in terms of these two, the announced address
      of the worker, and the next session number. */
  function Act(step: Step, caller: Caller, entry: Entry, announced: Address, sessions: nat): (r: (Caller, Entry)) {
    var p := Pool(map[], [entry], [if HasEntry(caller) then caller.(entry := 0) else caller], map[caller.record := announced], sessions);
    var q := Next(p, Alone(step));
    if HasEntry(caller) && |q.callers| == 1 && |q.entries| == 1 then
      (if HasEntry(q.callers[0]) then q.callers[0].(entry := caller.entry) else q.callers[0], q.entries[0])
    else (caller, entry)
  }

  /** The same step of the first call. */
  function Alone(step: Step): Step {
    match step
    case Enter(_) => Enter(0)
    case Decide(_) => Decide(0)
    case Closed(_) => Closed(0)
    case Connected(_, ok) => Connected(0, ok)
    case RunCapability(_) => RunCapability(0)
    case RunLate(_, i) => RunLate(0, i)
    case Answered(_, reply) => Answered(0, reply)
    case Release(_) => Release(0)
    case _ => step
  }

  ghost predicate ActsAlone(p: Pool, step: Step, c: nat)
    requires c < |p.callers| && HasEntry(p.callers[c]) && p.callers[c].entry < |p.entries|
    requires c < |Next(p, step).callers| && p.callers[c].entry < |Next(p, step).entries|
  {
    (Next(p, step).callers[c], Next(p, step).entries[p.callers[c].entry]) ==
      Act(step, p.callers[c], p.entries[p.callers[c].entry], Announced(p, p.callers[c].record), p.sessions)
  }

  lemma SameSize(p: Pool, step: Step)
    requires Actor(step).Some? && !step.GetOrAdd?
    ensures |Next(p, step).callers| == |p.callers| && |Next(p, step).entries| == |p.entries|
  {
  }

  lemma ActsAlone1(p: Pool, step: Step, c: nat)
    requires Actor(step) == Some(c) && (step.Enter? || step.Release?)
    requires c < |p.callers| && HasEntry(p.callers[c]) && p.callers[c].entry < |p.entries|
    ensures c < |Next(p, step).callers| && p.callers[c].entry < |Next(p, step).entries| && ActsAlone(p, step, c)
  {
    hide NeedsConnection, Reconnect;
    SameSize(p, step);
  }

  lemma ActsAlone4(p: Pool, step: Step, c: nat)
    requires Actor(step) == Some(c) && (step.RunCapability? || step.RunLate?)
    requires c < |p.callers| && HasEntry(p.callers[c]) && p.callers[c].entry < |p.entries|
    ensures c < |Next(p, step).callers| && p.callers[c].entry < |Next(p, step).entries| && ActsAlone(p, step, c)
  {
    hide NeedsConnection, Reconnect, Unusable;
    SameSize(p, step);
  }

  lemma ActsAlone2(p: Pool, step: Step, c: nat)
    requires Actor(step) == Some(c) && (step.Closed? || step.Connected?)
    requires c < |p.callers| && HasEntry(p.callers[c]) && p.callers[c].entry < |p.entries|
    ensures c < |Next(p, step).callers| && p.callers[c].entry < |Next(p, step).entries| && ActsAlone(p, step, c)
  {
    hide NeedsConnection, Reconnect, Unusable;
    SameSize(p, step);
  }

  lemma ActsAlone3(p: Pool, step: Step, c: nat)
    requires Actor(step) == Some(c) && (step.Decide? || step.Answered?)
    requires c < |p.callers| && HasEntry(p.callers[c]) && p.callers[c].entry < |p.entries|
    ensures c < |Next(p, step).callers| && p.callers[c].entry < |Next(p, step).entries| && ActsAlone(p, step, c)
  {
    SameSize(p, step);
  }

  /** A call never depends on other calls or other workers: it does what it would do alone with its entry. */
  lemma NeverBlocked(p: Pool, step: Step, c: nat)
    requires Gates(p) && Actor(step) == Some(c) && !step.GetOrAdd? && c < |p.callers| && HasEntry(p.callers[c])
    ensures p.callers[c].entry < |p.entries|
    ensures c < |Next(p, step).callers| && p.callers[c].entry < |Next(p, step).entries|
    ensures var e := p.callers[c].entry;
      (Next(p, step).callers[c], Next(p, step).entries[e]) ==
        Act(step, p.callers[c], p.entries[e], Announced(p, p.callers[c].record), p.sessions)
  {
    hide Next, Act;
    if step.Closed? || step.Connected? { ActsAlone2(p, step, c); }
    else if step.Decide? || step.Answered? { ActsAlone3(p, step, c); }
    else if step.RunCapability? || step.RunLate? { ActsAlone4(p, step, c); }
    else { ActsAlone1(p, step, c); }
  }

  /** Steps that are about other workers: calls for them, their announcements, the closing of their clients; and the
      clearing of the table. */
  ghost predicate Foreign(p: Pool, step: Step, c: nat)
    requires c < |p.callers| && HasEntry(p.callers[c])
  {
    match step
    case Restart(record, _) => record != p.callers[c].record
    case CloseClient(e) => e != p.callers[c].entry
    case _ => Actor(step).Some? ==> Actor(step).value < |p.callers| ==> p.callers[Actor(step).value].name != p.callers[c].name
  }

  ghost predicate ForeignRun(p: Pool, steps: seq<Step>, c: nat) {
    forall i :: 0 <= i < |steps| ==>
      var q := Run(p, steps[..i]); c < |q.callers| && HasEntry(q.callers[c]) && Foreign(q, steps[i], c)
  }

  lemma ForeignStep(p: Pool, step: Step, c: nat)
    requires Gates(p) && c < |p.callers| && HasEntry(p.callers[c]) && Foreign(p, step, c)
    ensures var q := Next(p, step); var e := p.callers[c].entry;
      && c < |q.callers| && e < |p.entries| && e < |q.entries| && q.callers[c] == p.callers[c] && q.entries[e] == p.entries[e]
      && Announced(q, p.callers[c].record) == Announced(p, p.callers[c].record)
  {
    hide Next, Gates;
    EntryOf(p, c);
    var e := p.callers[c].entry;
    if Actor(step).Some? && Actor(step).value < |p.callers| {
      var d := Actor(step).value;
      if HasEntry(p.callers[d]) { EntryOf(p, d); }
      Apart(p, step, d, c, e);
      Sizes(p, step);
    } else {
      Aside(p, step, c, e);
    }
  }

  lemma EntryOf(p: Pool, c: nat)
    requires Gates(p) && c < |p.callers| && HasEntry(p.callers[c])
    ensures p.callers[c].entry < |p.entries| && p.entries[p.callers[c].entry].owner == p.callers[c].name
  {
  }

  lemma Sizes(p: Pool, step: Step)
    ensures |Next(p, step).callers| >= |p.callers| && |Next(p, step).entries| >= |p.entries|
  {
  }

  lemma Aside(p: Pool, step: Step, c: nat, e: nat)
    requires c < |p.callers| && HasEntry(p.callers[c]) && p.callers[c].entry == e < |p.entries| && Foreign(p, step, c)
    requires Actor(step).Some? ==> Actor(step).value >= |p.callers|
    ensures var q := Next(p, step);
      && c < |q.callers| && e < |q.entries| && q.callers[c] == p.callers[c] && q.entries[e] == p.entries[e]
      && Announced(q, p.callers[c].record) == Announced(p, p.callers[c].record)
  {
    hide Reconnect, NeedsConnection, Unusable;
  }

  lemma ForeignInit(p: Pool, steps: seq<Step>, c: nat)
    requires ForeignRun(p, steps, c) && steps != []
    ensures ForeignRun(p, steps[..|steps| - 1], c)
    ensures var q := Run(p, steps[..|steps| - 1]); c < |q.callers| && HasEntry(q.callers[c]) && Foreign(q, steps[|steps| - 1], c)
  {
    hide Run, Foreign;
    var less := steps[..|steps| - 1];
    forall i | 0 <= i < |less|
      ensures var q := Run(p, less[..i]); c < |q.callers| && HasEntry(q.callers[c]) && Foreign(q, less[i], c)
    {
      assert less[..i] == steps[..i];
    }
  }

  lemma {:induction false} ForeignKeeps(p: Pool, steps: seq<Step>, c: nat)
    requires Gates(p) && Held(p) && c < |p.callers| && HasEntry(p.callers[c]) && ForeignRun(p, steps, c)
    ensures var q := Run(p, steps); var e := p.callers[c].entry;
      && Gates(q) && c < |q.callers| && e < |p.entries| && e < |q.entries| && q.callers[c] == p.callers[c] && q.entries[e] == p.entries[e]
      && Announced(q, p.callers[c].record) == Announced(p, p.callers[c].record)
  {
    RunGates(p, steps);
    EntryOf(p, c);
    if steps != [] {
      hide Gates, Held, Next, Foreign, ForeignRun, Announced;
      ForeignInit(p, steps, c);
      ForeignKeeps(p, steps[..|steps| - 1], c);
      ForeignStep(Run(p, steps[..|steps| - 1]), steps[|steps| - 1], c);
    }
  }

  lemma NothingHeld()
    ensures Gates(EMPTY) && Held(EMPTY)
  {
  }

  /** Different workers never block each other: whatever calls for other workers do in between, a step of a call does to the
      call and to its entry what it would have done at once; only the number of a new session may differ. */
  lemma OthersDoNotMatter(before: seq<Step>, others: seq<Step>, step: Step, c: nat)
    requires var p := Run(EMPTY, before);
      c < |p.callers| && HasEntry(p.callers[c]) && ForeignRun(p, others, c) && Actor(step) == Some(c) && !step.GetOrAdd?
    ensures var p := Run(EMPTY, before); var q := Run(p, others); var e := p.callers[c].entry;
      && e < |p.entries| && c < |Next(q, step).callers| && e < |Next(q, step).entries|
      && (Next(q, step).callers[c], Next(q, step).entries[e]) ==
           Act(step, p.callers[c], p.entries[e], Announced(p, p.callers[c].record), q.sessions)
  {
    hide Run, Next, Act, Gates, Held, ForeignRun, Announced;
    NothingHeld();
    RunGates(EMPTY, before);
    ForeignKeeps(Run(EMPTY, before), others, c);
    NeverBlocked(Run(Run(EMPTY, before), others), step, c);
  }

  // ----- attempts -----

  /** How often the capability was run for answered attempts. */
  function Ran(log: seq<Attempt>): nat {
    (if |log| > 0 && log[0].ran then 1 else 0) + (if |log| > 1 && log[1].ran then 1 else 0)
  }

  /** What a call may have behind it, phase by phase. */
  ghost predicate Disciplined(caller: Caller) {
    match caller
    case Inside(_, _, _, phase, log, runs) => (
      match phase
      case Check => log == [] && runs == 0
      case Closing(retry) => OneLost(retry, log) && runs == Ran(log)
      case Connecting(retry, _) => OneLost(retry, log) && runs == Ran(log)
      case Sending(second, _, ran) => OneLost(second, log) && runs == Ran(log) + (if ran then 1 else 0)
      case Leaving(outcome) => Settled(outcome, log, runs))
    case Finished(_, _, outcome, log, runs) => Settled(outcome, log, runs)
    case _ => true
  }

  /** Nothing has been sent before the first attempt; before the second, exactly one attempt was lost. */
  ghost predicate OneLost(second: bool, log: seq<Attempt>) {
    if second then |log| == 1 && Unusable(log[0]) else log == []
  }

  /** At most two attempts, the second only after the first was lost in transport or with its session; what is returned
      opened on the session that carried the last request, which was run. */
  ghost predicate Settled(outcome: Outcome, log: seq<Attempt>, runs: nat) {
    && |log| <= 2 && runs == Ran(log)
    && (|log| == 2 ==> Unusable(log[0]))
    && (outcome.Returned? ==> log != [] && log[|log| - 1].ran && log[|log| - 1].reply == Value(log[|log| - 1].session, outcome.value))
    && (outcome == Failed ==> log == [] || !log[|log| - 1].reply.Value? || Unusable(log[|log| - 1]))
  }

  lemma DisciplineStep(p: Pool, step: Step, c: nat)
    requires c < |Next(p, step).callers| && (c < |p.callers| ==> Disciplined(p.callers[c]))
    ensures Disciplined(Next(p, step).callers[c])
  {
    hide Next, Disciplined;
    if step.Answered? || step.Connected? || step.Closed? { DisciplineAnswer(p, step, c); }
    else if step.RunLate? || step.RunCapability? { DisciplineRan(p, step, c); }
    else { DisciplineRest(p, step, c); }
  }

  lemma DisciplineAnswer(p: Pool, step: Step, c: nat)
    requires step.Answered? || step.Connected? || step.Closed?
    requires c < |Next(p, step).callers| && (c < |p.callers| ==> Disciplined(p.callers[c]))
    ensures Disciplined(Next(p, step).callers[c])
  {
    hide NeedsConnection;
  }

  lemma DisciplineRan(p: Pool, step: Step, c: nat)
    requires step.RunLate? || step.RunCapability?
    requires c < |Next(p, step).callers| && (c < |p.callers| ==> Disciplined(p.callers[c]))
    ensures Disciplined(Next(p, step).callers[c])
  {
    hide NeedsConnection, Reconnect;
  }

  lemma DisciplineRest(p: Pool, step: Step, c: nat)
    requires !step.Answered? && !step.Connected? && !step.Closed? && !step.RunLate? && !step.RunCapability?
    requires c < |Next(p, step).callers| && (c < |p.callers| ==> Disciplined(p.callers[c]))
    ensures Disciplined(Next(p, step).callers[c])
  {
    hide NeedsConnection, Unusable;
  }

  lemma {:induction false} RunDisciplined(steps: seq<Step>, c: nat)
    requires c < |Run(EMPTY, steps).callers|
    ensures Disciplined(Run(EMPTY, steps).callers[c])
  {
    if steps != [] {
      hide Disciplined, Next;
      var q := Run(EMPTY, steps[..|steps| - 1]);
      if c < |q.callers| { RunDisciplined(steps[..|steps| - 1], c); }
      DisciplineStep(q, steps[|steps| - 1], c);
    }
  }

  /** The attempts sent so far. */
  function Sends(caller: Caller): nat {
    match caller
    case Inside(_, _, _, phase, log, _) => |log| + (if phase.Sending? then 1 else 0)
    case Finished(_, _, _, log, _) => |log|
    case _ => 0
  }

  /** Retry discipline in every run, at every moment of a call and after it, and even if the worker gets round to a lost
      request late: a call sends at most twice, and the worker runs its capability at most as often as it was sent; a
      second attempt follows only a first that was lost, never a result or an application error. */
  lemma RetryDiscipline(steps: seq<Step>, c: nat)
    requires c < |Run(EMPTY, steps).callers| && Logs(Run(EMPTY, steps).callers[c])
    ensures var caller := Run(EMPTY, steps).callers[c];
      && caller.runs <= Sends(caller) <= 2
      && (Sends(caller) == 2 ==> caller.log != [] && Unusable(caller.log[0]))
      && (caller.Finished? ==> Settled(caller.outcome, caller.log, caller.runs))
  {
    hide Run, Next;
    RunDisciplined(steps, c);
  }

  /** One more step of a run. */
  lemma Extend(p0: Pool, steps: seq<Step>, p: Pool, step: Step) returns (more: seq<Step>, q: Pool)
    requires Run(p0, steps) == p
    ensures q == Next(p, step) && Run(p0, more) == q
  {
    hide Next;
    more, q := steps + [step], Next(p, step);
    assert more[..|more| - 1] == steps;
  }

  /** A first call that waits at the gate, */
  lemma AtTheGate() returns (steps: seq<Step>, p: Pool)
    ensures Run(EMPTY, steps) == p == Pool(map["w" := 0], [Entry("w", 1, None, None)], [Queued("w", 0, 0)], map[], 0)
  {
    steps, p := [], EMPTY;
    steps, p := Extend(EMPTY, steps, p, Arrive("w", 0));
    assert p == Pool(map[], [], [Arrived("w", 0)], map[], 0);
    steps, p := Extend(EMPTY, steps, p, GetOrAdd(0));
  }

  /** that connects, */
  lemma OnTheWay() returns (steps: seq<Step>, p: Pool)
    ensures Run(EMPTY, steps) == p
    ensures p == Pool(map["w" := 0], [Entry("w", 0, Some(Client(0, 0, false)), Some(0))],
      [Inside("w", 0, 0, Sending(false, 0, false), [], 0)], map[], 1)
  {
    steps, p := AtTheGate();
    steps, p := Extend(EMPTY, steps, p, Enter(0));
    assert p == Pool(map["w" := 0], [Entry("w", 0, None, None)], [Inside("w", 0, 0, Check, [], 0)], map[], 0);
    steps, p := Extend(EMPTY, steps, p, Decide(0));
    assert p == Pool(map["w" := 0], [Entry("w", 0, None, None)], [Inside("w", 0, 0, Connecting(false, 0), [], 0)], map[], 0);
    steps, p := Extend(EMPTY, steps, p, Connected(0, true));
  }

  /** and whose reply is lost after the worker has done its work. */
  lemma FirstLost() returns (steps: seq<Step>, p: Pool)
    ensures Run(EMPTY, steps) == p
    ensures p == Pool(map["w" := 0], [Entry("w", 0, Some(Client(0, 0, false)), Some(0))],
      [Inside("w", 0, 0, Closing(true), [Attempt(0, Broken, true)], 1)], map[], 1)
  {
    steps, p := OnTheWay();
    steps, p := Extend(EMPTY, steps, p, RunCapability(0));
    assert p.callers == [Inside("w", 0, 0, Sending(false, 0, true), [], 1)];
    steps, p := Extend(EMPTY, steps, p, Answered(0, Broken));
    assert [] + [Attempt(0, Broken, true)] == [Attempt(0, Broken, true)];
  }

  /** The second attempt is sent. */
  lemma SecondSent() returns (steps: seq<Step>, p: Pool)
    ensures Run(EMPTY, steps) == p
    ensures p == Pool(map["w" := 0], [Entry("w", 0, Some(Client(1, 0, false)), Some(0))],
      [Inside("w", 0, 0, Sending(true, 1, false), [Attempt(0, Broken, true)], 1)], map[], 2)
  {
    hide Run;
    steps, p := FirstLost();
    steps, p := Extend(EMPTY, steps, p, Closed(0));
    steps, p := Extend(EMPTY, steps, p, Connected(0, true));
  }

  /** A capability really can run twice. */
  lemma RunsTwice(value: nat) returns (steps: seq<Step>)
    ensures var p := Run(EMPTY, steps);
      |p.callers| == 1 && p.callers[0].Finished? && p.callers[0].runs == 2 && p.callers[0].outcome == Returned(value)
  {
    hide Run;
    var p;
    steps, p := SecondSent();
    steps, p := Extend(EMPTY, steps, p, RunCapability(0));
    assert p.callers == [Inside("w", 0, 0, Sending(true, 1, true), [Attempt(0, Broken, true)], 2)];
    steps, p := Extend(EMPTY, steps, p, Answered(0, Value(1, value)));
    assert p.callers[0].phase == Leaving(Returned(value)) && p.callers[0].runs == 2;
    steps, p := Extend(EMPTY, steps, p, Release(0));
  }

  /** A first call that loses its connection before the worker gets to its request. */
  lemma LostEarly() returns (steps: seq<Step>, p: Pool)
    ensures Run(EMPTY, steps) == p
    ensures p == Pool(map["w" := 0], [Entry("w", 0, Some(Client(0, 0, true)), Some(0))],
      [Inside("w", 0, 0, Connecting(true, 0), [Attempt(0, Broken, false)], 0)], map[], 1)
  {
    hide Run;
    steps, p := OnTheWay();
    steps, p := Extend(EMPTY, steps, p, Answered(0, Broken));
    assert [] + [Attempt(0, Broken, false)] == [Attempt(0, Broken, false)];
    steps, p := Extend(EMPTY, steps, p, Closed(0));
  }

  /** The worker may get round to it after the call has failed and left. */
  lemma LateRun() returns (steps: seq<Step>)
    ensures var p, q := Run(EMPTY, steps), Next(Run(EMPTY, steps), RunLate(0, 0));
      && |p.callers| == |q.callers| == 1 && p.callers[0].Finished? && q.callers[0].Finished?
      && p.callers[0].outcome == q.callers[0].outcome == Failed && p.callers[0].runs == 0 && q.callers[0].runs == 1
  {
    hide Run;
    var p;
    steps, p := LostEarly();
    steps, p := Extend(EMPTY, steps, p, Connected(0, false));
    assert p.callers == [Inside("w", 0, 0, Leaving(Failed), [Attempt(0, Broken, false)], 0)];
    steps, p := Extend(EMPTY, steps, p, Release(0));
    assert p.callers == [Finished("w", 0, Failed, [Attempt(0, Broken, false)], 0)];
  }

  /** In every run, a call that has just entered the gate sends at once if and only if there is a client and the address noted
      for it is the one announced by now. Otherwise it closes the client, if there is one, or connects to that address. */
  lemma WarmIff(steps: seq<Step>, c: nat)
    requires var p := Run(EMPTY, steps); c < |p.callers| && p.callers[c].Inside? && p.callers[c].phase.Check?
    ensures var p, q := Run(EMPTY, steps), Next(Run(EMPTY, steps), Decide(c));
      var (e, now) := (p.callers[c].entry, Announced(p, p.callers[c].record));
      && e < |p.entries| && c < |q.callers| && q.callers[c].Inside?
      && q == p.(callers := p.callers[c := p.callers[c].(phase := q.callers[c].phase)])
      && (q.callers[c].phase.Sending? <==> p.entries[e].client.Some? && p.entries[e].address == Some(now))
      && (q.callers[c].phase.Sending? ==> q.callers[c].phase == Sending(false, p.entries[e].client.value.session, false))
      && (!q.callers[c].phase.Sending? ==>
            q.callers[c].phase == if p.entries[e].client.Some? then Closing(false) else Connecting(false, now))
  {
    hide Run, Held;
    NothingHeld();
    RunGates(EMPTY, steps);
    EntryOf(Run(EMPTY, steps), c);
  }

  /** In every run, a call that cannot connect fails and leaves: its attempts stay as they were, the entry gets its permit back
      and keeps its client and its note. */
  lemma Unreachable(steps: seq<Step>, c: nat)
    requires var p := Run(EMPTY, steps); c < |p.callers| && p.callers[c].Inside? && p.callers[c].phase.Connecting?
    ensures var p := Run(EMPTY, steps);
      var (x, e, q) := (p.callers[c], p.callers[c].entry, Next(Next(p, Connected(c, false)), Release(c)));
      && e < |p.entries|
      && q == p.(callers := p.callers[c := Finished(x.name, x.record, Failed, x.log, x.runs)],
                 entries := p.entries[e := p.entries[e].(permits := 1)])
  {
    hide Run, Held;
    NothingHeld();
    RunGates(EMPTY, steps);
    var p := Run(EMPTY, steps);
    EntryOf(p, c);
    var (x, e) := (p.callers[c], p.callers[c].entry);
    var q := Next(Next(p, Connected(c, false)), Release(c));
    assert q.callers == p.callers[c := Finished(x.name, x.record, Failed, x.log, x.runs)];
  }

  lemma {:induction false} RunOn(p: Pool, first: seq<Step>, more: seq<Step>)
    ensures Run(p, first + more) == Run(Run(p, first), more)
    decreases |more|
  {
    hide Next;
    if more == [] {
      assert first + more == first;
    } else {
      var l := |more| - 1;
      assert (first + more)[..|first| + l] == first + more[..l];
      RunOn(p, first, more[..l]);
    }
  }

  /** A run in which two calls for the same worker are inside: the pool was disposed while the first was under way. */
  lemma TwoInside() returns (steps: seq<Step>)
    ensures !Exclusive(Run(EMPTY, steps))
  {
    hide Next, Run, Exclusive;
    var p, q;
    steps, p := OnTheWay();
    RunGates(EMPTY, steps);
    NothingHeld();
    var more := ClearBreaks(p, 0);
    steps, q := Extend(EMPTY, steps, p, Clear);
    RunOn(EMPTY, steps, more);
    steps := steps + more;
  }

  // ----- sessions -----

  /** Clients of different entries have different sessions, and a call sends on the session of its entry's client. */
  ghost predicate Sessions(p: Pool) {
    && (forall e :: 0 <= e < |p.entries| && p.entries[e].client.Some? ==> p.entries[e].client.value.session < p.sessions)
    && (forall e, f :: 0 <= e < f < |p.entries| && p.entries[e].client.Some? && p.entries[f].client.Some? ==>
          p.entries[e].client.value.session != p.entries[f].client.value.session)
    && (forall c :: 0 <= c < |p.callers| && IsSending(p.callers[c]) ==> SendsOnClient(p, p.callers[c]))
  }

  predicate IsSending(caller: Caller) { caller.Inside? && caller.phase.Sending? }

  predicate SendsOnClient(p: Pool, caller: Caller)
    requires IsSending(caller)
  {
    caller.entry < |p.entries| && p.entries[caller.entry].client.Some?
      && p.entries[caller.entry].client.value.session == caller.phase.session
  }

  lemma SessionsConnect(p: Pool, c: nat, ok: bool)
    requires Gates(p) && Sessions(p)
    ensures Sessions(Next(p, Connected(c, ok)))
  {
    hide Reconnect, NeedsConnection, Unusable;
  }

  lemma SessionsDecide(p: Pool, c: nat)
    requires Gates(p) && Sessions(p)
    ensures Sessions(Next(p, Decide(c)))
  {
    hide Unusable, Gates;
  }

  /** Other steps start no sending, and change no session of a client. */
  ghost predicate NoNewSending(p: Pool, q: Pool) {
    && q.sessions == p.sessions && |p.entries| <= |q.entries| && |p.callers| <= |q.callers|
    && (forall e :: 0 <= e < |p.entries| ==>
          && (q.entries[e].client.Some? <==> p.entries[e].client.Some?)
          && (q.entries[e].client.Some? ==> q.entries[e].client.value.session == p.entries[e].client.value.session))
    && (forall e :: |p.entries| <= e < |q.entries| ==> q.entries[e].client == None)
    && (forall c :: 0 <= c < |q.callers| && IsSending(q.callers[c]) ==>
          && c < |p.callers| && IsSending(p.callers[c]) && q.callers[c].entry == p.callers[c].entry
          && q.callers[c].phase.session == p.callers[c].phase.session)
  }

  lemma NoNewSendingInside(p: Pool, step: Step)
    requires step.Closed? || step.RunCapability? || step.RunLate? || step.Answered?
    ensures NoNewSending(p, Next(p, step))
  {
    hide NeedsConnection, Unusable;
  }

  lemma NoNewSendingBefore(p: Pool, step: Step)
    requires step.Arrive? || step.GetOrAdd? || step.Enter?
    ensures NoNewSending(p, Next(p, step))
  {
    hide NeedsConnection, Unusable, Reconnect;
  }

  lemma NoNewSendingOutside(p: Pool, step: Step)
    requires step.Release? || step.Restart? || step.CloseClient? || step.Clear?
    ensures NoNewSending(p, Next(p, step))
  {
    hide NeedsConnection, Unusable, Reconnect;
  }

  lemma SessionsKept(p: Pool, q: Pool)
    requires Sessions(p) && NoNewSending(p, q)
    ensures Sessions(q)
  {
  }

  lemma SessionsStep(p: Pool, step: Step)
    requires Gates(p) && Sessions(p)
    ensures Sessions(Next(p, step))
  {
    hide Gates, Sessions, Next, NoNewSending;
    match step
    case Connected(c, ok) => SessionsConnect(p, c, ok);
    case Decide(c) => SessionsDecide(p, c);
    case _ =>
      if step.Closed? || step.RunCapability? || step.RunLate? || step.Answered? { NoNewSendingInside(p, step); }
      else if step.Arrive? || step.GetOrAdd? || step.Enter? { NoNewSendingBefore(p, step); }
      else { NoNewSendingOutside(p, step); }
      SessionsKept(p, Next(p, step));
  }

  lemma {:induction false} RunSessions(steps: seq<Step>)
    ensures Sessions(Run(EMPTY, steps)) && Gates(Run(EMPTY, steps))
  {
    RunGates(EMPTY, steps);
    if steps != [] {
      hide Gates, Held, Sessions, Next;
      RunSessions(steps[..|steps| - 1]);
      SessionsStep(Run(EMPTY, steps[..|steps| - 1]), steps[|steps| - 1]);
    }
  }

  /** What the gates are for: in every run, even if the pool is disposed under its calls, no session ever carries the
      requests of two calls at the same time. */
  lemma OneInFlight(steps: seq<Step>, c: nat, d: nat)
    requires var p := Run(EMPTY, steps); c < d < |p.callers| && IsSending(p.callers[c]) && IsSending(p.callers[d])
    ensures var p := Run(EMPTY, steps); p.callers[c].phase.session != p.callers[d].phase.session
  {
    hide Run, Next;
    RunSessions(steps);
    var p := Run(EMPTY, steps);
    assert p.callers[c].entry != p.callers[d].entry;
    assert SendsOnClient(p, p.callers[c]) && SendsOnClient(p, p.callers[d]);
  }

  // ----- the noted address -----

  /** The client of an entry is connected to the address noted for it. */
  predicate WellNoted(entry: Entry) {
    entry.client.Some? ==> entry.address == Some(entry.client.value.address)
  }

  predicate IsConnecting(p: Pool, c: nat) { InPhase(p, c) && p.callers[c].phase.Connecting? }

  /** Step `j` of the run is where call `c` reads the address to connect to. */
  ghost predicate ReadsAt(steps: seq<Step>, j: nat, c: nat) {
    j < |steps| && !IsConnecting(Run(EMPTY, steps[..j]), c) && IsConnecting(Run(EMPTY, steps[..j + 1]), c)
  }

  /** Step `k` is where a call connects entry `e`, and reads the address again to note it. */
  ghost predicate ConnectsAt(steps: seq<Step>, k: nat, e: nat) {
    k < |steps| && Connects(Run(EMPTY, steps[..k]), steps[k], e)
  }

  predicate Connects(p: Pool, step: Step, e: nat) {
    step.Connected? && step.ok && IsConnecting(p, step.c) && p.callers[step.c].entry == e
  }

  /** Step `i` is where the client of entry `e` is closed, by a call that reconnects or by the end of the pool. */
  ghost predicate ClosesAt(steps: seq<Step>, i: nat, e: nat) {
    i < |steps| && Closes(Run(EMPTY, steps[..i]), steps[i], e)
  }

  predicate Closes(p: Pool, step: Step, e: nat) {
    || step == CloseClient(e)
    || (step.Closed? && InPhase(p, step.c) && p.callers[step.c].phase.Closing? && p.callers[step.c].entry == e)
  }

  /** From its first read on, call `c` has been connecting to that address. */
  ghost predicate TargetRead(steps: seq<Step>, c: nat, j: nat) {
    && ReadsAt(steps, j, c) && c < |Run(EMPTY, steps).callers|
    && (forall i :: j < i <= |steps| ==> IsConnecting(Run(EMPTY, steps[..i]), c))
    && var x := Run(EMPTY, steps).callers[c];
       x.Inside? && x.phase.Connecting? && x.phase.target == Announced(Run(EMPTY, steps[..j]), x.record)
  }

  /** One step of a call that connects. */
  lemma ConnectingStep(p: Pool, step: Step, c: nat)
    requires IsConnecting(Next(p, step), c)
    requires c < |p.callers| && HasEntry(p.callers[c]) ==> p.callers[c].entry < |p.entries|
    ensures IsConnecting(p, c) ==>
      Next(p, step).callers[c].phase == p.callers[c].phase && Next(p, step).callers[c].record == p.callers[c].record
    ensures !IsConnecting(p, c) ==> Next(p, step).callers[c].phase.target == Announced(p, Next(p, step).callers[c].record)
  {
    hide NeedsConnection, Unusable;
  }

  lemma {:induction false} FirstRead(steps: seq<Step>, c: nat) returns (j: nat)
    requires IsConnecting(Run(EMPTY, steps), c)
    ensures TargetRead(steps, c, j)
  {
    hide Next, IsConnecting, Gates, Held;
    var l := |steps| - 1;
    EmptyCalls(c);
    var less := steps[..l];
    NothingHeld();
    RunGates(EMPTY, less);
    if c < |Run(EMPTY, less).callers| && HasEntry(Run(EMPTY, less).callers[c]) { EntryOf(Run(EMPTY, less), c); }
    ConnectingStep(Run(EMPTY, less), steps[l], c);
    assert steps[..l + 1] == steps;
    ConnectingIs(Run(EMPTY, steps), c);
    if IsConnecting(Run(EMPTY, less), c) {
      j := FirstRead(less, c);
      forall i | j < i <= |steps| ensures IsConnecting(Run(EMPTY, steps[..i]), c) {
        if i <= l { assert less[..i] == steps[..i]; }
      }
      assert less[..j] == steps[..j] && less[..j + 1] == steps[..j + 1];
      assert ReadsAt(less, j, c);
    } else {
      j := l;
      assert ReadsAt(steps, l, c);
    }
  }

  lemma EmptyCalls(c: nat)
    ensures !IsConnecting(Run(EMPTY, []), c)
  {
  }

  lemma ConnectingIs(p: Pool, c: nat)
    requires IsConnecting(p, c)
    ensures c < |p.callers| && p.callers[c].Inside? && p.callers[c].phase.Connecting?
  {
  }

  /** The client and the note are as before, but the client may have been closed. */
  ghost predicate ClientKept(p: Pool, step: Step, e: nat)
    requires e < |Next(p, step).entries| && Next(p, step).entries[e].client.Some?
  {
    var after := Next(p, step).entries[e];
    && e < |p.entries| && p.entries[e].client.Some? && after.client.value.address == p.entries[e].client.value.address
    && after.client.value.session == p.entries[e].client.value.session && after.address == p.entries[e].address
    && after.client.value.disposed == (p.entries[e].client.value.disposed || Closes(p, step, e))
  }

  /** What a step does to the client of an entry. */
  lemma ClientStep(p: Pool, step: Step, e: nat)
    requires e < |Next(p, step).entries| && Next(p, step).entries[e].client.Some?
    ensures var after := Next(p, step).entries[e];
      if Connects(p, step, e) then
        && !after.client.value.disposed && after.client.value.address == p.callers[step.c].phase.target
        && after.address == Some(Announced(p, p.callers[step.c].record))
      else ClientKept(p, step, e)
  {
    hide Next, Connects, ClientKept;
    if Connects(p, step, e) { ClientNew(p, step, e); }
    else if step.Closed? || step.Connected? || step.CloseClient? { ClientClosed(p, step, e); }
    else { ClientSame(p, step, e); }
  }

  lemma ClientNew(p: Pool, step: Step, e: nat)
    requires Connects(p, step, e) && e < |Next(p, step).entries|
    ensures var after := Next(p, step).entries[e];
      && after.client.Some? && !after.client.value.disposed && after.client.value.address == p.callers[step.c].phase.target
      && after.address == Some(Announced(p, p.callers[step.c].record))
  {
    hide NeedsConnection, Unusable, Reconnect;
  }

  lemma ClientClosed(p: Pool, step: Step, e: nat)
    requires (step.Closed? || step.Connected? || step.CloseClient?) && !Connects(p, step, e)
    requires e < |Next(p, step).entries| && Next(p, step).entries[e].client.Some?
    ensures ClientKept(p, step, e)
  {
    hide NeedsConnection, Unusable, Reconnect;
  }

  lemma ClientSame(p: Pool, step: Step, e: nat)
    requires !step.Closed? && !step.Connected? && !step.CloseClient?
    requires e < |Next(p, step).entries| && Next(p, step).entries[e].client.Some?
    ensures ClientKept(p, step, e)
  {
    hide NeedsConnection, Unusable, Reconnect;
  }

  /** The two reads of the last connection of an entry. */
  ghost predicate TwoReads(steps: seq<Step>, e: nat, j: nat, k: nat) {
    && j < k && ConnectsAt(steps, k, e) && ReadsAt(steps, j, steps[k].c)
    && (forall i :: j < i <= k ==> IsConnecting(Run(EMPTY, steps[..i]), steps[k].c))
    && (forall i :: k < i < |steps| ==> !ConnectsAt(steps, i, e))
  }

  function Reader(steps: seq<Step>, k: nat): Record
    requires k < |steps| && steps[k].Connected? && IsConnecting(Run(EMPTY, steps[..k]), steps[k].c)
  {
    Run(EMPTY, steps[..k]).callers[steps[k].c].record
  }

  ghost predicate ClosedSince(steps: seq<Step>, e: nat, k: nat) {
    exists i :: k < i < |steps| && ClosesAt(steps, i, e)
  }

  /** In every run, an entry with a client tells of its last connection: the client is connected to the address announced at
      the first read, the address noted is the one announced at the second read, and the client is closed if and only if it
      has been closed since. */
  lemma {:induction false} LastConnection(steps: seq<Step>, e: nat) returns (j: nat, k: nat)
    requires var p := Run(EMPTY, steps); e < |p.entries| && p.entries[e].client.Some?
    ensures TwoReads(steps, e, j, k)
    ensures var entry := Run(EMPTY, steps).entries[e];
      && entry.client.value.address == Announced(Run(EMPTY, steps[..j]), Reader(steps, k))
      && entry.address == Some(Announced(Run(EMPTY, steps[..k]), Reader(steps, k)))
      && (entry.client.value.disposed <==> ClosedSince(steps, e, k))
  {
    hide Next, IsConnecting, Announced, Closes, ConnectsAt;
    NoEntries();
    var l := |steps| - 1;
    var less := steps[..l];
    var p := Run(EMPTY, less);
    ClientStep(p, steps[l], e);
    if Connects(p, steps[l], e) {
      ConnectsIs(p, steps[l], e);
      j := FirstRead(less, steps[l].c);
      k := l;
      JustConnected(steps, e, j);
    } else {
      j, k := LastConnection(less, e);
      StillConnected(steps, e, j, k);
    }
  }

  lemma NoEntries()
    ensures Run(EMPTY, []) == EMPTY && EMPTY.entries == []
  {
  }

  lemma ConnectsIs(p: Pool, step: Step, e: nat)
    requires Connects(p, step, e)
    ensures step.Connected? && IsConnecting(p, step.c) && step.c < |p.callers|
  {
  }

  lemma JustConnected(steps: seq<Step>, e: nat, j: nat)
    requires steps != []
    requires var l := |steps| - 1;
      Connects(Run(EMPTY, steps[..l]), steps[l], e) && steps[l].Connected? && TargetRead(steps[..l], steps[l].c, j)
    ensures var l := |steps| - 1;
      && TwoReads(steps, e, j, l) && !ClosedSince(steps, e, l)
      && Run(EMPTY, steps[..l][..j]) == Run(EMPTY, steps[..j])
  {
    hide Run, Next, IsConnecting, Announced;
    var l := |steps| - 1;
    var less := steps[..l];
    assert less[..j] == steps[..j] && less[..j + 1] == steps[..j + 1];
    forall i | j < i <= l ensures IsConnecting(Run(EMPTY, steps[..i]), steps[l].c) {
      assert less[..i] == steps[..i];
    }
  }

  lemma StillConnected(steps: seq<Step>, e: nat, j: nat, k: nat)
    requires steps != [] && TwoReads(steps[..|steps| - 1], e, j, k)
    requires !Connects(Run(EMPTY, steps[..|steps| - 1]), steps[|steps| - 1], e)
    ensures TwoReads(steps, e, j, k) && Reader(steps, k) == Reader(steps[..|steps| - 1], k)
    ensures Run(EMPTY, steps[..|steps| - 1][..j]) == Run(EMPTY, steps[..j])
      && Run(EMPTY, steps[..|steps| - 1][..k]) == Run(EMPTY, steps[..k])
    ensures ClosedSince(steps, e, k) <==>
      ClosedSince(steps[..|steps| - 1], e, k) || Closes(Run(EMPTY, steps[..|steps| - 1]), steps[|steps| - 1], e)
  {
    hide Run, Next, IsConnecting, Announced, Closes, Connects;
    var l := |steps| - 1;
    var less := steps[..l];
    assert forall i :: 0 <= i < l ==> less[i] == steps[i];
    forall i | 0 <= i <= l ensures less[..i] == steps[..i] {
    }
    ReadsInOrder(less, e, j, k);
    assert ConnectsAt(less, k, e) && ConnectsAt(steps, k, e);
    assert less[..j + 1] == steps[..j + 1] && ReadsAt(less, j, steps[k].c) && ReadsAt(steps, j, steps[k].c);
    forall i | k < i < |steps| ensures !ConnectsAt(steps, i, e) {
      if i < l { assert !ConnectsAt(less, i, e); }
    }
    forall i | j < i <= k ensures IsConnecting(Run(EMPTY, steps[..i]), steps[k].c) {
      assert IsConnecting(Run(EMPTY, less[..i]), less[k].c);
    }
    if ClosedSince(less, e, k) {
      var i :| k < i < |less| && ClosesAt(less, i, e);
      assert ClosesAt(steps, i, e);
    }
    if Closes(Run(EMPTY, less), steps[l], e) {
      assert ClosesAt(steps, l, e);
    }
    if ClosedSince(steps, e, k) {
      var i :| k < i < |steps| && ClosesAt(steps, i, e);
      if i < l { assert ClosesAt(less, i, e); }
    }
  }

  /** In every run, an entry's note is wrong if and only if the worker had announced another address between the two reads
      of its last connection. */
  lemma NotedRightly(steps: seq<Step>, e: nat) returns (j: nat, k: nat)
    requires var p := Run(EMPTY, steps); e < |p.entries| && p.entries[e].client.Some?
    ensures TwoReads(steps, e, j, k)
    ensures WellNoted(Run(EMPTY, steps).entries[e]) <==>
      Announced(Run(EMPTY, steps[..j]), Reader(steps, k)) == Announced(Run(EMPTY, steps[..k]), Reader(steps, k))
    ensures !WellNoted(Run(EMPTY, steps).entries[e]) ==> exists i :: j <= i < k && steps[i].Restart? && steps[i].record == Reader(steps, k)
  {
    hide Next, IsConnecting, Announced, TwoReads;
    j, k := LastConnection(steps, e);
    ReadsInOrder(steps, e, j, k);
    if forall i :: j <= i < k ==> !(steps[i].Restart? && steps[i].record == Reader(steps, k)) {
      SameAnnounced(steps, j, k, Reader(steps, k));
    }
  }

  lemma ReadsInOrder(steps: seq<Step>, e: nat, j: nat, k: nat)
    requires TwoReads(steps, e, j, k)
    ensures j < k < |steps| && steps[k].Connected? && IsConnecting(Run(EMPTY, steps[..k]), steps[k].c)
  {
  }

  lemma AnnouncedStep(p: Pool, step: Step, record: Record)
    requires !(step.Restart? && step.record == record)
    ensures Announced(Next(p, step), record) == Announced(p, record)
  {
    hide NeedsConnection, Unusable, Reconnect;
  }

  lemma {:induction false} SameAnnounced(steps: seq<Step>, j: nat, k: nat, record: Record)
    requires j <= k <= |steps| && forall i :: j <= i < k ==> !(steps[i].Restart? && steps[i].record == record)
    ensures Announced(Run(EMPTY, steps[..j]), record) == Announced(Run(EMPTY, steps[..k]), record)
    decreases k - j
  {
    hide Next, Announced;
    if j < k {
      SameAnnounced(steps, j, k - 1, record);
      assert steps[..k][..k - 1] == steps[..k - 1];
      AnnouncedStep(Run(EMPTY, steps[..k - 1]), steps[k - 1], record);
    }
  }

  /** A run in which the note is wrong: the worker comes back at another address while a call connects to the old one. */
  lemma WrongNote() returns (steps: seq<Step>)
    ensures var p := Run(EMPTY, steps); |p.entries| == 1 && p.entries[0].client.Some? && !WellNoted(p.entries[0])
  {
    hide Run;
    var p;
    steps, p := AtTheGate();
    steps, p := Extend(EMPTY, steps, p, Enter(0));
    assert p == Pool(map["w" := 0], [Entry("w", 0, None, None)], [Inside("w", 0, 0, Check, [], 0)], map[], 0);
    steps, p := Extend(EMPTY, steps, p, Decide(0));
    assert p == Pool(map["w" := 0], [Entry("w", 0, None, None)], [Inside("w", 0, 0, Connecting(false, 0), [], 0)], map[], 0);
    steps, p := Extend(EMPTY, steps, p, Restart(0, 5));
    assert p.announced == map[0 := 5];
    steps, p := Extend(EMPTY, steps, p, Connected(0, true));
    assert p.entries == [Entry("w", 0, Some(Client(0, 0, false)), Some(5))];
  }

  // ----- until the next announcement -----

  /** All calls that have entry `e` are for workers that have announced the same address. */
  ghost predicate OneAddress(p: Pool, e: nat, record: Record) {
    forall c :: 0 <= c < |p.callers| && HasEntry(p.callers[c]) && p.callers[c].entry == e ==>
      Announced(p, p.callers[c].record) == Announced(p, record)
  }

  /** Entry `e` is noted for the announced address, its client is either the one it had, or connected to that address by a
      retry, and no call reconnects it but for a retry. */
  ghost predicate Settles(p: Pool, e: nat, record: Record, was: Client) {
    && e < |p.entries| && p.entries[e].client.Some? && p.entries[e].address == Some(Announced(p, record))
    && (p.entries[e].client.value.address == Announced(p, record) || SameClient(p.entries[e].client.value, was))
    && (forall c :: 0 <= c < |p.callers| && Holds(p.callers[c], e) ==> Retries(p.callers[c].phase, Announced(p, record)))
  }

  predicate SameClient(a: Client, b: Client) { a.session == b.session && a.address == b.address }

  predicate Retries(phase: Phase, announced: Address) {
    && (phase.Closing? ==> phase.retry)
    && (phase.Connecting? ==> phase.retry && phase.target == announced)
  }

  lemma SettlesStart(p: Pool, c: nat, was: Client)
    requires Gates(p) && IsConnecting(p, c) && was == Client(p.sessions, p.callers[c].phase.target, false)
    ensures Settles(Next(p, Connected(c, true)), p.callers[c].entry, p.callers[c].record, was)
  {
  }

  lemma SettlesStep(p: Pool, step: Step, e: nat, record: Record, was: Client)
    requires Settles(p, e, record, was) && OneAddress(p, e, record) && !(step.Restart? && step.record == record)
    ensures Settles(Next(p, step), e, record, was)
  {
    hide Next, Settles, OneAddress;
    AnnouncedStep(p, step, record);
    if step.Answered? || step.Decide? || step.Closed? || step.Connected? {
      SettlesCall(p, step, e, record, was);
    } else {
      SettlesRest(p, step, e, record, was);
    }
  }

  lemma SettlesCall(p: Pool, step: Step, e: nat, record: Record, was: Client)
    requires Settles(p, e, record, was) && OneAddress(p, e, record) && Announced(Next(p, step), record) == Announced(p, record)
    requires step.Answered? || step.Decide? || step.Closed? || step.Connected?
    ensures Settles(Next(p, step), e, record, was)
  {
    hide Unusable;
  }

  lemma SettlesRest(p: Pool, step: Step, e: nat, record: Record, was: Client)
    requires Settles(p, e, record, was) && Announced(Next(p, step), record) == Announced(p, record)
    requires !(step.Answered? || step.Decide? || step.Closed? || step.Connected?)
    ensures Settles(Next(p, step), e, record, was)
  {
    hide Unusable, NeedsConnection, Reconnect, Announced;
  }

  /** After a connection, until the worker announces itself again: the entry stays noted for the announced address, so no
      call reconnects it at first; its client stays the one that was connected, however wrong, until a retry connects one
      to the announced address. */
  lemma {:induction false} UntilAnnounced(p: Pool, c: nat, more: seq<Step>)
    requires Gates(p) && IsConnecting(p, c)
    requires var q := Next(p, Connected(c, true));
      forall i :: 0 <= i < |more| ==> OneAddress(Run(q, more[..i]), p.callers[c].entry, p.callers[c].record)
                                      && !(more[i].Restart? && more[i].record == p.callers[c].record)
    ensures Settles(Run(Next(p, Connected(c, true)), more), p.callers[c].entry, p.callers[c].record,
      Client(p.sessions, p.callers[c].phase.target, false))
    decreases |more|
  {
    hide Gates, Settles, OneAddress, Next, IsConnecting;
    ConnectingIs(p, c);
    var was := Client(p.sessions, p.callers[c].phase.target, false);
    var q := Next(p, Connected(c, true));
    if more == [] {
      SettlesStart(p, c, was);
    } else {
      var l := |more| - 1;
      assert more[..l + 1] == more;
      forall i | 0 <= i < l
        ensures OneAddress(Run(q, more[..l][..i]), p.callers[c].entry, p.callers[c].record)
        ensures !(more[..l][i].Restart? && more[..l][i].record == p.callers[c].record)
      {
        assert more[..l][..i] == more[..i];
      }
      UntilAnnounced(p, c, more[..l]);
      SettlesStep(Run(q, more[..l]), more[l], p.callers[c].entry, p.callers[c].record, was);
    }
  }
}

/** The worker supervisor as a transition system: starts, exit handlers and stops interleave at
    every await, and worker processes may exit at any time. */
module Supervisor {
  import opened JsMaps

  type Name = string
  type Pid = nat
  type Psk = nat

  const MAX_RESTARTS := 3

  /** A process: the key it was launched with, and whether it still runs. */
  datatype Process = Process(psk: Psk, alive: bool)

  /** What happened to one worker since `StartAsync` was called for it. */
  datatype Event = Checked | Launched(pid: Pid) | Exited(pid: Pid)

  /** A start, and what became of it. The first three phases belong to `StartAsync`, the other three to an exit handler;
      `Up` is between the two: the process is registered and its exit is watched for. */
  datatype Phase =
    | Checking
    | Launching
    | Waiting(pid: Pid)
    | Up
    | Delayed
    | Rechecking
    | Relaunching
    | Rewaiting(pid: Pid)
    | Over

  /** The record of a registered worker: `RegisteredWorker`. */
  datatype Record = Record(process: Pid, announced: Pid, stopRequested: bool, restarts: nat)

  /** One call of `StartAsync`, with the record it makes, if it gets that far. */
  datatype Worker = Worker(name: Name, psk: Psk, phase: Phase, record: Option<Record>, events: seq<Event>)

  /** `stopping` has the name of every stop that has killed its process and not yet removed the entry. */
  datatype State = State(workers: seq<Worker>, registry: map<Name, nat>, processes: seq<Process>, stopping: multiset<Name>)

  datatype Step =
    | Start(name: Name, psk: Psk)
    | Verified(w: nat, clean: bool)
    | Launch(w: nat)
    | Announce(w: nat)
    | GiveUp(w: nat)
    | Exit(pid: Pid)
    | Handle(w: nat)
    | Wake(w: nat)
    | Stop(name: Name)
    | StopEnds(name: Name)

  const EMPTY := State([], map[], [], multiset{})

  function With(s: State, w: nat, worker: Worker): State
    requires w < |s.workers|
  {
    s.(workers := s.workers[w := worker])
  }

  function Unregistered(s: State, name: Name): State { s.(registry := s.registry - {name}) }

  predicate Alive(s: State, pid: Pid) { pid < |s.processes| && s.processes[pid].alive }

  function Killed(s: State, pid: Pid): State {
    if pid < |s.processes| then s.(processes := s.processes[pid := s.processes[pid].(alive := false)]) else s
  }

  function Next(s: State, step: Step): State {
    match step
    case Start(name, psk) => s.(workers := s.workers + [Worker(name, psk, Checking, None, [])])
    // The checksum, awaited in StartAsync and again in the exit handler.
    case Verified(w, clean) =>
      if w >= |s.workers| then s
      else
        var x := s.workers[w];
        if x.phase.Checking? then
          With(s, w, if clean then x.(phase := Launching, events := x.events + [Checked]) else x.(phase := Over))
        else if x.phase.Rechecking? then
          if clean then With(s, w, x.(phase := Relaunching, events := x.events + [Checked]))
          else Unregistered(With(s, w, x.(phase := Over)), x.name)
        else s
    // A new process gets the key of its worker. It may fail to start.
    case Launch(w) =>
      if w >= |s.workers| || !(s.workers[w].phase.Launching? || s.workers[w].phase.Relaunching?) then s
      else
        var x, pid := s.workers[w], |s.processes|;
        With(s, w, x.(phase := if x.phase.Launching? then Waiting(pid) else Rewaiting(pid), events := x.events + [Launched(pid)]))
          .(processes := s.processes + [Process(x.psk, true)])
    // The announcement of this very process has been seen: register, or update the record in one go.
    case Announce(w) =>
      if w >= |s.workers| then s
      else
        var x := s.workers[w];
        if x.phase.Waiting? && Alive(s, x.phase.pid) then
          With(s, w, x.(phase := Up, record := Some(Record(x.phase.pid, x.phase.pid, false, 0)))).(registry := s.registry[x.name := w])
        else if x.phase.Rewaiting? && x.record.Some? && Alive(s, x.phase.pid) then
          With(s, w, x.(phase := Up, record :=
            Some(x.record.value.(process := x.phase.pid, announced := x.phase.pid, restarts := x.record.value.restarts + 1))))
        else s
    // No announcement: the process never started, exited, or is killed after the timeout.
    case GiveUp(w) =>
      if w >= |s.workers| then s
      else
        var x := s.workers[w];
        var over := With(s, w, x.(phase := Over));
        if x.phase.Launching? then over
        else if x.phase.Waiting? then Killed(over, x.phase.pid)
        else if x.phase.Relaunching? then Unregistered(over, x.name)
        else if x.phase.Rewaiting? then Killed(Unregistered(over, x.name), x.phase.pid)
        else s
    case Exit(pid) => Killed(s, pid)
    // The exit handler starts. Only here is it asked whether the exit was wanted.
    case Handle(w) =>
      if w >= |s.workers| || !s.workers[w].phase.Up? || s.workers[w].record == None || Alive(s, s.workers[w].record.value.process) then s
      else
        var x := s.workers[w];
        var y := x.(events := x.events + [Exited(x.record.value.process)]);
        if x.record.value.stopRequested then With(s, w, y.(phase := Over))
        else if x.record.value.restarts >= MAX_RESTARTS then Unregistered(With(s, w, y.(phase := Over)), x.name)
        else With(s, w, y.(phase := Delayed))
    case Wake(w) =>
      if w >= |s.workers| || !s.workers[w].phase.Delayed? then s
      else With(s, w, s.workers[w].(phase := Rechecking))
    // Stop: mark the record and kill the process it names. Up to five seconds pass until that has exited;
    case Stop(name) =>
      if name !in s.registry || s.registry[name] >= |s.workers| || s.workers[s.registry[name]].record == None then s
      else
        var w := s.registry[name];
        var r := s.workers[w].record.value;
        Killed(With(s, w, s.workers[w].(record := Some(r.(stopRequested := true)))), r.process).(stopping := s.stopping + multiset{name})
    // then the entry goes, by its name.
    case StopEnds(name) =>
      if name !in s.stopping then s
      else Unregistered(s, name).(stopping := s.stopping - multiset{name})
  }

  function Run(s: State, steps: seq<Step>): State {
    if steps == [] then s else Next(Run(s, steps[..|steps| - 1]), steps[|steps| - 1])
  }

  // ----- the history of a worker -----

  /** Check, launch, exit, and so on in this order. */
  ghost predicate Proper(events: seq<Event>) {
    forall i :: 0 <= i < |events| ==> ProperAt(events, i)
  }

  ghost predicate ProperAt(events: seq<Event>, i: nat)
    requires i < |events|
  {
    if i % 3 == 0 then events[i].Checked?
    else if i % 3 == 1 then events[i].Launched?
    else events[i].Exited? && events[i - 1] == Launched(events[i].pid)
  }

  /** How far the history has got in each phase, in terms of the restarts so far. */
  ghost predicate OnTrack(x: Worker) {
    && Proper(x.events)
    && (x.record.Some? ==> x.record.value.restarts <= MAX_RESTARTS)
    && match x.phase
       case Checking => x.record == None && x.events == []
       case Launching => x.record == None && |x.events| == 1
       case Waiting(pid) => x.record == None && |x.events| == 2 && x.events[1] == Launched(pid)
       case Up => x.record.Some? && |x.events| == 3 * x.record.value.restarts + 2
         && x.events[|x.events| - 1] == Launched(x.record.value.process)
       case Delayed => Restartable(x) && |x.events| == 3 * x.record.value.restarts + 3
       case Rechecking => Restartable(x) && |x.events| == 3 * x.record.value.restarts + 3
       case Relaunching => Restartable(x) && |x.events| == 3 * x.record.value.restarts + 4
       case Rewaiting(pid) => Restartable(x) && |x.events| == 3 * x.record.value.restarts + 5 && x.events[|x.events| - 1] == Launched(pid)
       case Over => |x.events| <= 3 * MAX_RESTARTS + 3
  }

  ghost predicate Restartable(x: Worker) { x.record.Some? && x.record.value.restarts < MAX_RESTARTS }

  lemma ProperMore(events: seq<Event>, e: Event)
    requires Proper(events) && ProperAt(events + [e], |events|)
    ensures Proper(events + [e])
  {
    forall i | 0 <= i < |events| ensures ProperAt(events + [e], i) {
      assert ProperAt(events, i);
    }
  }

  lemma NothingProper()
    ensures Proper([])
  {
  }

  lemma OnTrackStep(s: State, step: Step, w: nat)
    requires w < |Next(s, step).workers| && (w < |s.workers| ==> OnTrack(s.workers[w]))
    ensures OnTrack(Next(s, step).workers[w])
  {
    hide Next, OnTrack;
    if w >= |s.workers| {
      NewOnTrack(s, step, w);
    } else if Next(s, step).workers[w] != s.workers[w] {
      if Next(s, step).workers[w].events != s.workers[w].events {
        EventStep(s, step, w);
        EventOnTrack(s, step, w);
      } else {
        PhaseOnTrack(s, step, w);
      }
    }
  }

  lemma NewOnTrack(s: State, step: Step, w: nat)
    requires |s.workers| <= w < |Next(s, step).workers|
    ensures OnTrack(Next(s, step).workers[w])
  {
    NothingProper();
  }

  lemma EventOnTrack(s: State, step: Step, w: nat)
    requires w < |s.workers| && OnTrack(s.workers[w]) && s.workers[w].events != Next(s, step).workers[w].events
    requires Proper(Next(s, step).workers[w].events)
    ensures OnTrack(Next(s, step).workers[w])
  {
    hide Proper;
  }

  lemma PhaseOnTrack(s: State, step: Step, w: nat)
    requires w < |s.workers| && OnTrack(s.workers[w]) && s.workers[w].events == Next(s, step).workers[w].events
    ensures OnTrack(Next(s, step).workers[w])
  {
    hide Next, OnTrack;
    if Starting(step) { PhaseStart(s, step, w); } else { PhaseChange(s, step, w); }
  }

  lemma PhaseStart(s: State, step: Step, w: nat)
    requires w < |s.workers| && OnTrack(s.workers[w]) && s.workers[w].events == Next(s, step).workers[w].events && Starting(step)
    ensures OnTrack(Next(s, step).workers[w])
  {
    hide Proper;
  }

  lemma PhaseChange(s: State, step: Step, w: nat)
    requires w < |s.workers| && OnTrack(s.workers[w]) && s.workers[w].events == Next(s, step).workers[w].events && !Starting(step)
    ensures OnTrack(Next(s, step).workers[w])
  {
    hide Proper;
  }

  /** Where the history grows, it grows properly. */
  lemma EventStep(s: State, step: Step, w: nat)
    requires w < |s.workers| && OnTrack(s.workers[w]) && s.workers[w].events != Next(s, step).workers[w].events
    ensures Proper(Next(s, step).workers[w].events)
  {
    hide Next, Proper, OnTrack;
    EventAdded(s, step, w);
    var x, y := s.workers[w], Next(s, step).workers[w];
    ProperMore(x.events, y.events[|x.events|]);
  }

  lemma EventAdded(s: State, step: Step, w: nat)
    requires w < |s.workers| && OnTrack(s.workers[w]) && s.workers[w].events != Next(s, step).workers[w].events
    ensures w < |Next(s, step).workers|
    ensures var e0, e1 := s.workers[w].events, Next(s, step).workers[w].events;
      |e1| == |e0| + 1 && e1 == e0 + [e1[|e0|]] && ProperAt(e1, |e0|) && Proper(e0)
  {
    hide Next, OnTrack, ProperAt;
    if step.Launch? { LaunchAdded(s, step, w); } else { OtherAdded(s, step, w); }
  }

  lemma LaunchAdded(s: State, step: Step, w: nat)
    requires w < |s.workers| && OnTrack(s.workers[w]) && s.workers[w].events != Next(s, step).workers[w].events && step.Launch?
    ensures w < |Next(s, step).workers|
    ensures var e0, e1 := s.workers[w].events, Next(s, step).workers[w].events;
      |e1| == |e0| + 1 && e1 == e0 + [e1[|e0|]] && ProperAt(e1, |e0|) && Proper(e0)
  {
    hide Proper;
  }

  lemma OtherAdded(s: State, step: Step, w: nat)
    requires w < |s.workers| && OnTrack(s.workers[w]) && s.workers[w].events != Next(s, step).workers[w].events && !step.Launch?
    ensures w < |Next(s, step).workers|
    ensures var e0, e1 := s.workers[w].events, Next(s, step).workers[w].events;
      |e1| == |e0| + 1 && e1 == e0 + [e1[|e0|]] && ProperAt(e1, |e0|) && Proper(e0)
  {
    hide Proper;
  }

  lemma {:induction false} RunOnTrack(steps: seq<Step>, w: nat)
    requires w < |Run(EMPTY, steps).workers|
    ensures OnTrack(Run(EMPTY, steps).workers[w])
  {
    if steps != [] {
      hide OnTrack, Next;
      var s := Run(EMPTY, steps[..|steps| - 1]);
      if w < |s.workers| { RunOnTrack(steps[..|steps| - 1], w); }
      OnTrackStep(s, steps[|steps| - 1], w);
    }
  }

  function Launches(events: seq<Event>): nat {
    if events == [] then 0
    else Launches(events[..|events| - 1]) + if events[|events| - 1].Launched? then 1 else 0
  }

  lemma {:induction false} LaunchCount(events: seq<Event>)
    requires Proper(events)
    ensures Launches(events) == (|events| + 1) / 3
  {
    if events != [] {
      var l := |events| - 1;
      ProperInit(events);
      LaunchCount(events[..l]);
      assert ProperAt(events, l);
    }
  }

  lemma ProperInit(events: seq<Event>)
    requires Proper(events) && events != []
    ensures Proper(events[..|events| - 1])
  {
    var less := events[..|events| - 1];
    forall i | 0 <= i < |less| ensures ProperAt(less, i) {
      assert ProperAt(events, i);
    }
  }

  /** Bounded supervision: in every run, one start leads to at most four launches. */
  lemma BoundedLaunches(steps: seq<Step>, w: nat)
    requires w < |Run(EMPTY, steps).workers|
    ensures Launches(Run(EMPTY, steps).workers[w].events) <= 4
  {
    hide Run, Next, Proper;
    RunOnTrack(steps, w);
    LaunchCount(Run(EMPTY, steps).workers[w].events);
  }

  /** In every run, what the exit of a running worker leads to: if a stop wanted it, the worker is over. Else it is over, and
      the entry of its name goes, if that was its fourth launch. Otherwise it will be relaunched, and the entry stays. */
  lemma GivesUpExactly(steps: seq<Step>, w: nat)
    requires var s := Run(EMPTY, steps);
      w < |s.workers| && s.workers[w].phase.Up? && s.workers[w].record.Some? && !Alive(s, s.workers[w].record.value.process)
    ensures var s, t := Run(EMPTY, steps), Next(Run(EMPTY, steps), Handle(w));
      var x, last := s.workers[w], !s.workers[w].record.value.stopRequested && Launches(s.workers[w].events) == 4;
      && (t.workers[w].phase == if x.record.value.stopRequested || last then Over else Delayed)
      && t.workers[w] == x.(phase := t.workers[w].phase, events := x.events + [Exited(x.record.value.process)])
      && t == s.(workers := s.workers[w := t.workers[w]], registry := if last then s.registry - {x.name} else s.registry)
  {
    hide Run, Proper;
    RunOnTrack(steps, w);
    LaunchCount(Run(EMPTY, steps).workers[w].events);
  }

  /** Every launch comes right after a clean check, and the check of a relaunch right after the exit of the process before. */
  lemma CheckedLaunches(steps: seq<Step>, w: nat, i: nat)
    requires w < |Run(EMPTY, steps).workers| && i < |Run(EMPTY, steps).workers[w].events|
    requires Run(EMPTY, steps).workers[w].events[i].Launched?
    ensures var s := Run(EMPTY, steps);
      var events := s.workers[w].events;
      && i > 0 && events[i - 1].Checked?
      && (i > 1 ==> i > 2 && events[i - 2].Exited? && events[i - 3] == Launched(events[i - 2].pid) && !Alive(s, events[i - 2].pid))
  {
    hide Run, Next;
    RunOnTrack(steps, w);
    RunKeyed(steps, w);
    var events := Run(EMPTY, steps).workers[w].events;
    assert ProperAt(events, i);
    if i > 0 { assert ProperAt(events, i - 1); }
    if i > 1 { assert ProperAt(events, i - 2); }
  }

  // ----- keys and records -----

  predicate Dead(s: State, pid: Pid) { pid < |s.processes| && !s.processes[pid].alive }

  /** An exit handler that has passed its check for a wanted exit, and has not launched yet. */
  predicate MayLaunch(x: Worker) { x.phase.Delayed? || x.phase.Rechecking? || x.phase.Relaunching? }

  predicate LaunchedWith(s: State, pid: Pid, psk: Psk) { pid < |s.processes| && s.processes[pid].psk == psk }

  /** The record names one process, the same for the announcement, and that process has the worker's key. */
  ghost predicate Keyed(s: State, x: Worker) {
    && (x.record.Some? ==> x.record.value.process == x.record.value.announced && LaunchedWith(s, x.record.value.process, x.psk))
    && (x.phase.Waiting? || x.phase.Rewaiting? ==> LaunchedWith(s, x.phase.pid, x.psk))
  }

  /** Only known processes are named, and an exit handler is at work only once the process of the record has ended. */
  ghost predicate Known(s: State, x: Worker) {
    && (x.record.Some? ==> x.record.value.process < |s.processes|)
    && (x.phase.Waiting? || x.phase.Rewaiting? ==> x.phase.pid < |s.processes|)
    && (x.record.Some? && (MayLaunch(x) || x.phase.Rewaiting?) ==> Dead(s, x.record.value.process))
  }

  /** What the history takes for ended has ended. */
  ghost predicate Ended(s: State, events: seq<Event>) {
    forall i :: 0 <= i < |events| && events[i].Exited? ==> events[i].pid < |s.processes| && !s.processes[events[i].pid].alive
  }

  lemma KnownStep(s: State, step: Step, w: nat)
    requires w < |Next(s, step).workers| && (w < |s.workers| ==> Known(s, s.workers[w]))
    ensures Known(Next(s, step), Next(s, step).workers[w])
  {
    hide Next;
    Processes(s, step);
    if w < |s.workers| && Next(s, step).workers[w] == s.workers[w] {
    } else if Starting(step) {
      KnownStart(s, step, w);
    } else {
      KnownChange(s, step, w);
    }
  }

  /** The steps on the way from a start or a relaunch to a running process. */
  predicate Starting(step: Step) { step.Start? || step.Launch? || step.Announce? || step.GiveUp? }

  lemma KnownStart(s: State, step: Step, w: nat)
    requires w < |Next(s, step).workers| && (w < |s.workers| ==> Known(s, s.workers[w]) && Next(s, step).workers[w] != s.workers[w])
    requires Starting(step)
    ensures Known(Next(s, step), Next(s, step).workers[w])
  {
  }

  lemma KnownChange(s: State, step: Step, w: nat)
    requires w < |Next(s, step).workers| && (w < |s.workers| ==> Known(s, s.workers[w]) && Next(s, step).workers[w] != s.workers[w])
    requires !Starting(step)
    ensures Known(Next(s, step), Next(s, step).workers[w])
  {
  }

  /** How the history of a worker grows in one step. */
  lemma Grows(s: State, step: Step, w: nat)
    requires w < |s.workers| && Known(s, s.workers[w]) && w < |Next(s, step).workers|
    ensures var e0, e1 := s.workers[w].events, Next(s, step).workers[w].events;
      || e1 == e0
      || (|e1| == |e0| + 1 && e1[..|e0|] == e0 && (e1[|e0|].Exited? ==> e1[|e0|].pid < |s.processes| && !s.processes[e1[|e0|].pid].alive))
  {
    hide Next, Known;
    if Starting(step) { GrowsStart(s, step, w); } else { GrowsElse(s, step, w); }
  }

  lemma GrowsStart(s: State, step: Step, w: nat)
    requires w < |s.workers| && w < |Next(s, step).workers| && Starting(step)
    ensures var e0, e1 := s.workers[w].events, Next(s, step).workers[w].events;
      e1 == e0 || (|e1| == |e0| + 1 && e1[..|e0|] == e0 && !e1[|e0|].Exited?)
  {
  }

  lemma GrowsElse(s: State, step: Step, w: nat)
    requires w < |s.workers| && Known(s, s.workers[w]) && w < |Next(s, step).workers| && !Starting(step)
    ensures var e0, e1 := s.workers[w].events, Next(s, step).workers[w].events;
      || e1 == e0
      || (|e1| == |e0| + 1 && e1[..|e0|] == e0 && (e1[|e0|].Exited? ==> e1[|e0|].pid < |s.processes| && !s.processes[e1[|e0|].pid].alive))
  {
  }

  lemma EndedStep(s: State, step: Step, w: nat)
    requires w < |Next(s, step).workers| && (w < |s.workers| ==> Known(s, s.workers[w]) && Ended(s, s.workers[w].events))
    ensures Ended(Next(s, step), Next(s, step).workers[w].events)
  {
    hide Next, Known;
    Processes(s, step);
    if w < |s.workers| {
      Grows(s, step, w);
      EndedMore(s, Next(s, step), s.workers[w].events, Next(s, step).workers[w].events);
    } else {
      NoHistory(s, step, w);
    }
  }

  lemma EndedMore(s: State, s': State, e0: seq<Event>, e1: seq<Event>)
    requires Ended(s, e0) && |s'.processes| >= |s.processes|
    requires forall pid :: 0 <= pid < |s.processes| && !s.processes[pid].alive ==> !s'.processes[pid].alive
    requires e1 == e0 || (|e1| == |e0| + 1 && e1[..|e0|] == e0
      && (e1[|e0|].Exited? ==> e1[|e0|].pid < |s.processes| && !s.processes[e1[|e0|].pid].alive))
    ensures Ended(s', e1)
  {
    forall i | 0 <= i < |e1| && e1[i].Exited?
      ensures e1[i].pid < |s'.processes| && !s'.processes[e1[i].pid].alive
    {
      if i < |e0| { assert e1[i] == e0[i]; }
    }
  }

  lemma NoHistory(s: State, step: Step, w: nat)
    requires |s.workers| <= w < |Next(s, step).workers|
    ensures Next(s, step).workers[w].events == []
  {
  }

  lemma KeyedStep(s: State, step: Step, w: nat)
    requires w < |Next(s, step).workers| && (w < |s.workers| ==> Keyed(s, s.workers[w]))
    ensures Keyed(Next(s, step), Next(s, step).workers[w])
  {
    hide Next;
    Processes(s, step);
    if w < |s.workers| && Next(s, step).workers[w] == s.workers[w] {
    } else if Starting(step) {
      KeyedStart(s, step, w);
    } else {
      KeyedChange(s, step, w);
    }
  }

  lemma KeyedStart(s: State, step: Step, w: nat)
    requires w < |Next(s, step).workers| && (w < |s.workers| ==> Keyed(s, s.workers[w]) && Next(s, step).workers[w] != s.workers[w])
    requires Starting(step)
    ensures Keyed(Next(s, step), Next(s, step).workers[w])
  {
  }

  lemma KeyedChange(s: State, step: Step, w: nat)
    requires w < |Next(s, step).workers| && (w < |s.workers| ==> Keyed(s, s.workers[w]) && Next(s, step).workers[w] != s.workers[w])
    requires !Starting(step)
    ensures Keyed(Next(s, step), Next(s, step).workers[w])
  {
  }

  /** Processes keep their keys, and the dead stay dead. */
  lemma Processes(s: State, step: Step)
    ensures |Next(s, step).processes| >= |s.processes|
    ensures forall pid :: 0 <= pid < |s.processes| ==> Next(s, step).processes[pid].psk == s.processes[pid].psk
    ensures forall pid :: 0 <= pid < |s.processes| && !s.processes[pid].alive ==> !Next(s, step).processes[pid].alive
  {
  }

  lemma {:induction false} RunKeyed(steps: seq<Step>, w: nat)
    requires w < |Run(EMPTY, steps).workers|
    ensures var s := Run(EMPTY, steps); Keyed(s, s.workers[w]) && Known(s, s.workers[w]) && Ended(s, s.workers[w].events)
  {
    if steps != [] {
      hide Keyed, Known, Ended, Next;
      var s := Run(EMPTY, steps[..|steps| - 1]);
      if w < |s.workers| { RunKeyed(steps[..|steps| - 1], w); }
      KeyedStep(s, steps[|steps| - 1], w);
      KnownStep(s, steps[|steps| - 1], w);
      EndedStep(s, steps[|steps| - 1], w);
    }
  }

  /** What is registered under a name is a record of that name. */
  ghost predicate Filed(s: State) {
    forall name :: name in s.registry ==>
      s.registry[name] < |s.workers| && s.workers[s.registry[name]].name == name && s.workers[s.registry[name]].record.Some?
  }

  /** Workers keep their names, and their records once they have them. */
  lemma Workers(s: State, step: Step, w: nat)
    requires w < |s.workers|
    ensures w < |Next(s, step).workers| && Next(s, step).workers[w].name == s.workers[w].name
    ensures Next(s, step).workers[w].psk == s.workers[w].psk
    ensures s.workers[w].record.Some? ==> Next(s, step).workers[w].record.Some?
  {
  }

  lemma FiledStep(s: State, step: Step)
    requires Filed(s)
    ensures Filed(Next(s, step))
  {
    hide Next;
    var s' := Next(s, step);
    forall name | name in s'.registry
      ensures s'.registry[name] < |s'.workers| && s'.workers[s'.registry[name]].name == name && s'.workers[s'.registry[name]].record.Some?
    {
      if name in s.registry && s.registry[name] == s'.registry[name] {
        Workers(s, step, s.registry[name]);
      } else {
        OnlyStartsRegister(s, step, name);
        Workers(s, step, step.w);
      }
    }
  }

  lemma {:induction false} RunFiled(steps: seq<Step>)
    ensures Filed(Run(EMPTY, steps))
  {
    if steps != [] {
      hide Filed, Next;
      RunFiled(steps[..|steps| - 1]);
      FiledStep(Run(EMPTY, steps[..|steps| - 1]), steps[|steps| - 1]);
    }
  }

  /** Registry and key agree in every run: the announced process of a registered worker is the process of its record, and
      it was launched with the stored key, however often the worker has been restarted. */
  lemma RegistryCoherent(steps: seq<Step>, name: Name)
    requires name in Run(EMPTY, steps).registry
    ensures var s := Run(EMPTY, steps);
      && s.registry[name] < |s.workers|
      && var x := s.workers[s.registry[name]];
      && x.name == name && x.record.Some? && x.record.value.announced == x.record.value.process
      && LaunchedWith(s, x.record.value.announced, x.psk)
  {
    hide Run, Next;
    RunFiled(steps);
    RunKeyed(steps, Run(EMPTY, steps).registry[name]);
  }

  /** The exit handler never registers anything: only the end of a start does. */
  lemma OnlyStartsRegister(s: State, step: Step, name: Name)
    requires name in Next(s, step).registry && !(name in s.registry && s.registry[name] == Next(s, step).registry[name])
    ensures step.Announce? && step.w < |s.workers| && s.workers[step.w].phase.Waiting?
    ensures s.workers[step.w].name == name && Next(s, step).registry[name] == step.w && Next(s, step).workers[step.w].record.Some?
  {
  }

  /** A worker whose start is behind it, and that no entry of the registry names. */
  predicate Removed(s: State, w: nat) {
    && w < |s.workers| && !s.workers[w].phase.Checking? && !s.workers[w].phase.Launching? && !s.workers[w].phase.Waiting?
    && w !in s.registry.Values
  }

  lemma RemovedStep(s: State, step: Step, w: nat)
    requires Removed(s, w)
    ensures Removed(Next(s, step), w)
  {
    hide Next;
    PastStart(s, step, w);
    var s' := Next(s, step);
    if w in s'.registry.Values {
      var name :| name in s'.registry && s'.registry[name] == w;
      if !(name in s.registry && s.registry[name] == w) { OnlyStartsRegister(s, step, name); }
      assert false;
    }
  }

  lemma PastStart(s: State, step: Step, w: nat)
    requires w < |s.workers| && !s.workers[w].phase.Checking? && !s.workers[w].phase.Launching? && !s.workers[w].phase.Waiting?
    ensures var s' := Next(s, step);
      w < |s'.workers| && !s'.workers[w].phase.Checking? && !s'.workers[w].phase.Launching? && !s'.workers[w].phase.Waiting?
  {
  }

  lemma {:induction false} RunRemoved(s: State, steps: seq<Step>, w: nat)
    requires Removed(s, w)
    ensures Removed(Run(s, steps), w)
  {
    if steps != [] {
      hide Removed, Next;
      RunRemoved(s, steps[..|steps| - 1], w);
      RemovedStep(Run(s, steps[..|steps| - 1]), steps[|steps| - 1], w);
    }
  }

  /** Once a worker that was registered has been removed from the registry, no exit handler, nor anything else, puts it back. */
  lemma NeverBack(steps: seq<Step>, some: seq<Step>, more: seq<Step>, w: nat)
    requires w in Run(EMPTY, steps).registry.Values && w !in Run(Run(EMPTY, steps), some).registry.Values
    ensures w !in Run(Run(Run(EMPTY, steps), some), more).registry.Values
  {
    hide Run, Next;
    RunUpOnce(steps, w);
    RunPast(Run(EMPTY, steps), some, w);
    RunRemoved(Run(Run(EMPTY, steps), some), more, w);
  }

  lemma RunUpOnce(steps: seq<Step>, w: nat)
    requires w in Run(EMPTY, steps).registry.Values
    ensures var s := Run(EMPTY, steps);
      w < |s.workers| && !s.workers[w].phase.Checking? && !s.workers[w].phase.Launching? && !s.workers[w].phase.Waiting?
  {
    hide Run, Next, Proper;
    RunFiled(steps);
    RunOnTrack(steps, w);
  }

  lemma {:induction false} RunPast(s: State, steps: seq<Step>, w: nat)
    requires w < |s.workers| && !s.workers[w].phase.Checking? && !s.workers[w].phase.Launching? && !s.workers[w].phase.Waiting?
    ensures var s' := Run(s, steps);
      w < |s'.workers| && !s'.workers[w].phase.Checking? && !s'.workers[w].phase.Launching? && !s'.workers[w].phase.Waiting?
  {
    if steps != [] {
      hide Next;
      RunPast(s, steps[..|steps| - 1], w);
      PastStart(Run(s, steps[..|steps| - 1]), steps[|steps| - 1], w);
    }
  }

  // ----- stopping -----

  predicate Stopped(x: Worker) { x.record.Some? && x.record.value.stopRequested }

  /** The launches of a stopped worker, with the one that may still come. */
  function Prospect(x: Worker): nat { Launches(x.events) + if MayLaunch(x) then 1 else 0 }

  lemma LaunchesMore(events: seq<Event>, e: Event)
    ensures Launches(events + [e]) == Launches(events) + if e.Launched? then 1 else 0
  {
    assert (events + [e])[..|events|] == events;
  }

  lemma StoppedStep(s: State, step: Step, w: nat)
    requires w < |s.workers| && Stopped(s.workers[w]) && OnTrack(s.workers[w])
    ensures w < |Next(s, step).workers| && Stopped(Next(s, step).workers[w])
    ensures Launches(s.workers[w].events) <= Launches(Next(s, step).workers[w].events)
    ensures Prospect(Next(s, step).workers[w]) <= Prospect(s.workers[w])
  {
    hide Launches, Proper;
    var x, y := s.workers[w], Next(s, step).workers[w];
    if y.events != x.events {
      LaunchesMore(x.events, y.events[|x.events|]);
    }
  }

  lemma {:induction false} RunStopped(s: State, steps: seq<Step>, w: nat)
    requires w < |s.workers| && Stopped(s.workers[w]) && OnTrack(s.workers[w])
    ensures w < |Run(s, steps).workers| && Stopped(Run(s, steps).workers[w]) && OnTrack(Run(s, steps).workers[w])
    ensures Launches(s.workers[w].events) <= Launches(Run(s, steps).workers[w].events)
    ensures Prospect(Run(s, steps).workers[w]) <= Prospect(s.workers[w])
  {
    if steps != [] {
      hide OnTrack, Next, Stopped, Prospect, Launches;
      RunStopped(s, steps[..|steps| - 1], w);
      StoppedStep(Run(s, steps[..|steps| - 1]), steps[|steps| - 1], w);
      OnTrackStep(Run(s, steps[..|steps| - 1]), steps[|steps| - 1], w);
    }
  }

  /** A stopped worker is launched again at most once, and then only if an exit handler was already past its check. */
  lemma StopBounds(s: State, steps: seq<Step>, w: nat)
    requires w < |s.workers| && Stopped(s.workers[w]) && OnTrack(s.workers[w])
    ensures w < |Run(s, steps).workers|
    ensures Launches(Run(s, steps).workers[w].events) <= Launches(s.workers[w].events) + if MayLaunch(s.workers[w]) then 1 else 0
  {
    hide OnTrack, Next, Run, Launches;
    RunStopped(s, steps, w);
  }

  /** No process that was ever launched for this worker is running. */
  ghost predicate Down(s: State, w: nat) {
    w < |s.workers| && AllDead(s, s.workers[w].events)
  }

  ghost predicate AllDead(s: State, events: seq<Event>) {
    forall i :: 0 <= i < |events| && events[i].Launched? ==> Dead(s, events[i].pid)
  }

  /** What is registered is a worker that was up, and either was never stopped or is being stopped. */
  ghost predicate Kept(s: State) {
    forall name :: name in s.registry ==> s.registry[name] < |s.workers| && KeptWorker(s, name, s.workers[s.registry[name]])
  }

  predicate KeptWorker(s: State, name: Name, x: Worker) {
    x.record.Some? && if x.record.value.stopRequested then name in s.stopping else x.phase.Up? || MayLaunch(x) || x.phase.Rewaiting?
  }

  lemma KeptStep(s: State, step: Step, name: Name)
    requires Filed(s) && Kept(s) && name in Next(s, step).registry
    ensures var s' := Next(s, step); s'.registry[name] < |s'.workers| && KeptWorker(s', name, s'.workers[s'.registry[name]])
  {
    hide Next, Kept, Filed, KeptWorker;
    if Starting(step) { KeptStart(s, step, name); }
    else if step.Stop? || step.StopEnds? { KeptStop(s, step, name); }
    else if step.Verified? || step.Handle? { KeptChange(s, step, name); }
    else { KeptElse(s, step, name); }
  }

  lemma KeptStart(s: State, step: Step, name: Name)
    requires Filed(s) && Kept(s) && name in Next(s, step).registry && Starting(step)
    ensures var s' := Next(s, step); s'.registry[name] < |s'.workers| && KeptWorker(s', name, s'.workers[s'.registry[name]])
  {
  }

  lemma KeptStop(s: State, step: Step, name: Name)
    requires Filed(s) && Kept(s) && name in Next(s, step).registry && (step.Stop? || step.StopEnds?)
    ensures var s' := Next(s, step); s'.registry[name] < |s'.workers| && KeptWorker(s', name, s'.workers[s'.registry[name]])
  {
    assert name in s.registry && KeptWorker(s, name, s.workers[s.registry[name]]);
  }

  lemma KeptChange(s: State, step: Step, name: Name)
    requires Filed(s) && Kept(s) && name in Next(s, step).registry && (step.Verified? || step.Handle?)
    ensures var s' := Next(s, step); s'.registry[name] < |s'.workers| && KeptWorker(s', name, s'.workers[s'.registry[name]])
  {
    assert name in s.registry && KeptWorker(s, name, s.workers[s.registry[name]]);
  }

  lemma KeptElse(s: State, step: Step, name: Name)
    requires Filed(s) && Kept(s) && name in Next(s, step).registry && (step.Exit? || step.Wake?)
    ensures var s' := Next(s, step); s'.registry[name] < |s'.workers| && KeptWorker(s', name, s'.workers[s'.registry[name]])
  {
    assert name in s.registry && KeptWorker(s, name, s.workers[s.registry[name]]);
  }

  lemma {:induction false} RunKept(steps: seq<Step>)
    ensures Kept(Run(EMPTY, steps))
  {
    if steps != [] {
      hide Kept, Filed, Next, KeptWorker;
      var s := Run(EMPTY, steps[..|steps| - 1]);
      RunKept(steps[..|steps| - 1]);
      RunFiled(steps[..|steps| - 1]);
      forall name | name in Next(s, steps[|steps| - 1]).registry
        ensures var s' := Run(EMPTY, steps); s'.registry[name] < |s'.workers| && KeptWorker(s', name, s'.workers[s'.registry[name]])
      {
        KeptStep(s, steps[|steps| - 1], name);
      }
      KeptAll(Run(EMPTY, steps));
    }
  }

  lemma KeptAll(s: State)
    requires forall name :: name in s.registry ==> s.registry[name] < |s.workers| && KeptWorker(s, name, s.workers[s.registry[name]])
    ensures Kept(s)
  {
  }

  /** Only the last process launched for a worker may be running. */
  lemma EarlierDead(s: State, x: Worker)
    requires OnTrack(x) && Ended(s, x.events)
    ensures forall i :: 0 <= i < |x.events| - 1 && x.events[i].Launched? ==> Dead(s, x.events[i].pid)
  {
    forall i | 0 <= i < |x.events| - 1 && x.events[i].Launched? ensures Dead(s, x.events[i].pid) {
      assert ProperAt(x.events, i) && ProperAt(x.events, i + 1);
    }
  }

  /** The moments in which a stop is in time: the worker waits for its process to exit, or the process that the exit
      handler has launched is gone already, or an earlier stop has seen the worker off. */
  predicate InTime(s: State, x: Worker) {
    x.phase.Up? || x.phase.Over? || (x.phase.Rewaiting? && !Alive(s, x.phase.pid))
  }

  /** What was launched last for a worker that has been given up is gone. */
  predicate OverDead(s: State, x: Worker) {
    x.phase.Over? && x.events != [] && Last(x.events).Launched? ==> Dead(s, Last(x.events).pid)
  }

  lemma OverDeadStep(s: State, step: Step, w: nat)
    requires w < |Next(s, step).workers|
      && (w < |s.workers| ==> OverDead(s, s.workers[w]) && OnTrack(s.workers[w]) && Known(s, s.workers[w]))
    ensures OverDead(Next(s, step), Next(s, step).workers[w])
  {
    hide Proper, Next, OverDead;
    Processes(s, step);
    if w < |s.workers| && Next(s, step).workers[w] == s.workers[w] {
      StaysOverDead(s, Next(s, step), s.workers[w]);
    } else if Starting(step) {
      OverDeadStart(s, step, w);
    } else {
      OverDeadChange(s, step, w);
    }
  }

  lemma StaysOverDead(s: State, s': State, x: Worker)
    requires OverDead(s, x) && |s'.processes| >= |s.processes|
    requires forall pid :: 0 <= pid < |s.processes| && !s.processes[pid].alive ==> !s'.processes[pid].alive
    ensures OverDead(s', x)
  {
  }

  lemma OverDeadStart(s: State, step: Step, w: nat)
    requires w < |Next(s, step).workers| && Starting(step)
    requires w < |s.workers| ==> Next(s, step).workers[w] != s.workers[w] && OnTrack(s.workers[w]) && Known(s, s.workers[w])
    ensures OverDead(Next(s, step), Next(s, step).workers[w])
  {
    hide Proper;
    if w < |s.workers| { LastEvent(s.workers[w]); }
  }

  lemma OverDeadChange(s: State, step: Step, w: nat)
    requires w < |Next(s, step).workers| && !Starting(step)
    requires w < |s.workers| ==> Next(s, step).workers[w] != s.workers[w] && OnTrack(s.workers[w]) && OverDead(s, s.workers[w])
    ensures OverDead(Next(s, step), Next(s, step).workers[w])
  {
    hide Proper;
    if w < |s.workers| { LastEvent(s.workers[w]); }
  }

  /** What a worker did last before it is given up. */
  lemma LastEvent(x: Worker)
    requires OnTrack(x)
    ensures x.phase.Launching? || x.phase.Relaunching? ==> x.events != [] && Last(x.events).Checked?
    ensures x.phase.Rechecking? ==> x.events != [] && Last(x.events).Exited?
  {
    if x.events != [] { assert ProperAt(x.events, |x.events| - 1); }
  }

  lemma {:induction false} RunOverDead(steps: seq<Step>, w: nat)
    requires w < |Run(EMPTY, steps).workers|
    ensures OverDead(Run(EMPTY, steps), Run(EMPTY, steps).workers[w])
  {
    if steps != [] {
      hide Keyed, Known, Ended, Next, OnTrack, OverDead;
      var s := Run(EMPTY, steps[..|steps| - 1]);
      if w < |s.workers| {
        RunOverDead(steps[..|steps| - 1], w);
        RunOnTrack(steps[..|steps| - 1], w);
        RunKeyed(steps[..|steps| - 1], w);
      }
      OverDeadStep(s, steps[|steps| - 1], w);
    }
  }

  /** A stopped worker that will not come up again. */
  ghost predicate AtRest(s: State, w: nat) {
    && Down(s, w) && Stopped(s.workers[w])
    && InTime(s, s.workers[w])
    && (s.workers[w].phase.Up? ==> Dead(s, s.workers[w].record.value.process))
    && (s.workers[w].phase.Rewaiting? ==> Dead(s, s.workers[w].phase.pid))
  }

  lemma AtRestStep(s: State, step: Step, w: nat)
    requires AtRest(s, w)
    ensures AtRest(Next(s, step), w)
  {
    hide Next, AllDead;
    Processes(s, step);
    Workers(s, step, w);
    RestingStep(s, step, w);
    var x, y := s.workers[w], Next(s, step).workers[w];
    StillDead(s, Next(s, step), x.events, y.events);
  }

  lemma RestingStep(s: State, step: Step, w: nat)
    requires w < |s.workers| && Stopped(s.workers[w]) && InTime(s, s.workers[w])
    requires s.workers[w].phase.Up? ==> Dead(s, s.workers[w].record.value.process)
    ensures w < |Next(s, step).workers|
    ensures var x, y := s.workers[w], Next(s, step).workers[w];
      && Stopped(y) && y.record.value.process == x.record.value.process
      && (y.phase == x.phase || y.phase.Over?)
      && (y.events == x.events || exists pid :: y.events == x.events + [Exited(pid)])
  {
    var x, y := s.workers[w], Next(s, step).workers[w];
    if step.Handle? && y != x {
      assert y.events == x.events + [Exited(x.record.value.process)];
    }
  }

  lemma StillDead(s: State, s': State, e0: seq<Event>, e1: seq<Event>)
    requires AllDead(s, e0) && (e1 == e0 || exists pid :: e1 == e0 + [Exited(pid)]) && |s'.processes| >= |s.processes|
    requires forall pid :: 0 <= pid < |s.processes| && !s.processes[pid].alive ==> !s'.processes[pid].alive
    ensures AllDead(s', e1)
  {
    forall i | 0 <= i < |e1| && e1[i].Launched? ensures Dead(s', e1[i].pid) {
      assert e1[i] == e0[i];
    }
  }

  lemma {:induction false} RunAtRest(s: State, steps: seq<Step>, w: nat)
    requires AtRest(s, w)
    ensures Down(Run(s, steps), w) && AtRest(Run(s, steps), w)
  {
    if steps != [] {
      hide AtRest, Next;
      RunAtRest(s, steps[..|steps| - 1], w);
      AtRestStep(Run(s, steps[..|steps| - 1]), steps[|steps| - 1], w);
    }
    RestIsDown(Run(s, steps), w);
  }

  lemma RestIsDown(s: State, w: nat)
    requires AtRest(s, w)
    ensures Down(s, w)
  {
  }

  /** A stop in time puts the worker to rest. */
  lemma StopRests(s: State, name: Name)
    requires name in s.registry && s.registry[name] < |s.workers| && InTime(s, s.workers[s.registry[name]])
    requires var x := s.workers[s.registry[name]]; x.record.Some? && OnTrack(x) && Known(s, x) && Ended(s, x.events) && OverDead(s, x)
    ensures AtRest(Next(s, Stop(name)), s.registry[name])
  {
    hide OnTrack, Proper, Ended;
    var w := s.registry[name];
    var x, s' := s.workers[w], Next(s, Stop(name));
    EarlierDead(s, x);
    if !x.phase.Over? { LastLaunched(x); }
    assert s'.workers[w].events == x.events && Dead(s', x.record.value.process);
    assert forall pid :: Dead(s, pid) ==> Dead(s', pid);
    forall i | 0 <= i < |x.events| && x.events[i].Launched? ensures Dead(s', x.events[i].pid) {
      if i < |x.events| - 1 { assert Dead(s, x.events[i].pid); }
    }
  }

  lemma LastLaunched(x: Worker)
    requires OnTrack(x) && (x.phase.Up? || x.phase.Rewaiting?)
    ensures x.record.Some? && x.events != []
    ensures x.events[|x.events| - 1] == Launched(if x.phase.Up? then x.record.value.process else x.phase.pid)
  {
    hide Proper;
  }

  /** What brings a worker up again whose exit handler is past its check. */
  function Comeback(phase: Phase, w: nat): (steps: seq<Step>)
    ensures steps != []
  {
    if phase.Delayed? then [Wake(w), Verified(w, true), Launch(w), Announce(w)]
    else if phase.Rechecking? then [Verified(w, true), Launch(w), Announce(w)]
    else if phase.Relaunching? then [Launch(w), Announce(w)]
    else [Announce(w)]
  }

  lemma {:induction false} RunCons(s: State, step: Step, steps: seq<Step>)
    ensures Run(s, [step] + steps) == Run(Next(s, step), steps)
  {
    hide Next;
    var all := [step] + steps;
    if steps == [] {
      assert all[..0] == [] && Run(s, all) == Next(Run(s, all[..0]), step);
    } else {
      RunCons(s, step, steps[..|steps| - 1]);
      assert all[..|all| - 1] == [step] + steps[..|steps| - 1];
    }
  }

  /** A worker on its way up again, whose new process, if any, runs. */
  predicate Coming(s: State, w: nat) {
    && w < |s.workers| && s.workers[w].record.Some?
    && (MayLaunch(s.workers[w]) || (s.workers[w].phase.Rewaiting? && Alive(s, s.workers[w].phase.pid) && s.workers[w].events != []
                                    && Last(s.workers[w].events) == Launched(s.workers[w].phase.pid)))
  }

  /** A worker that is up, with a running process that was launched last. */
  predicate Running(s: State, w: nat) {
    && w < |s.workers| && s.workers[w].record.Some? && s.workers[w].phase.Up? && s.workers[w].events != []
    && Alive(s, s.workers[w].record.value.process)
    && Last(s.workers[w].events) == Launched(s.workers[w].record.value.process)
  }

  lemma ComingStep(s: State, w: nat)
    requires Coming(s, w)
    ensures var t := Next(s, Comeback(s.workers[w].phase, w)[0]);
      && t.registry == s.registry && w < |t.workers|
      && (Stopped(s.workers[w]) ==> Stopped(t.workers[w]))
      && match s.workers[w].phase
         case Delayed => Coming(t, w) && t.workers[w].phase == Rechecking
         case Rechecking => Coming(t, w) && t.workers[w].phase == Relaunching
         case Relaunching => Coming(t, w) && t.workers[w].phase.Rewaiting?
         case _ => Running(t, w)
  {
  }

  lemma {:induction false} ComesBack(s: State, w: nat)
    requires Coming(s, w)
    ensures var t := Run(s, Comeback(s.workers[w].phase, w)); 
      Running(t, w) && t.registry == s.registry && (Stopped(s.workers[w]) ==> Stopped(t.workers[w]))
    decreases |Comeback(s.workers[w].phase, w)|
  {
    hide Next, Coming, Running, Run;
    ComingFits(s, w);
    ComingStep(s, w);
    var steps := Comeback(s.workers[w].phase, w);
    var t := Next(s, steps[0]);
    assert steps == [steps[0]] + steps[1..];
    RunCons(s, steps[0], steps[1..]);
    if s.workers[w].phase.Rewaiting? {
      assert steps[1..] == [];
      RunNothing(t);
    } else {
      assert steps[1..] == Comeback(t.workers[w].phase, w);
      ComesBack(t, w);
    }
  }

  lemma RunNothing(s: State)
    ensures Run(s, []) == s
  {
  }

  lemma ComingFits(s: State, w: nat)
    requires Coming(s, w)
    ensures w < |s.workers|
    ensures s.workers[w].phase.Delayed? || s.workers[w].phase.Rechecking? || s.workers[w].phase.Relaunching?
      || s.workers[w].phase.Rewaiting?
  {
  }

  /** A handler past its check is not recalled: the worker comes up again although it is stopped, and nobody has it in the
      registry. */
  lemma StopTooLate(steps: seq<Step>, name: Name)
    requires name in Run(EMPTY, steps).registry
    ensures var s := Run(EMPTY, steps);
      var w := s.registry[name];
      && w < |s.workers|
      && (!InTime(s, s.workers[w]) ==>
            var t := Run(Next(Next(s, Stop(name)), StopEnds(name)), Comeback(s.workers[w].phase, w));
            Running(t, w) && Stopped(t.workers[w]) && name !in t.registry)
  {
    var s := Run(EMPTY, steps);
    hide Run, Next, Running, OnTrack, Keyed, Ended;
    RunFiled(steps);
    var w := s.registry[name];
    RunKeyed(steps, w);
    RunOnTrack(steps, w);
    if !InTime(s, s.workers[w]) {
      if s.workers[w].phase.Rewaiting? { LastLaunched(s.workers[w]); }
      RecordedPhase(s.workers[w]);
      LateStop(s, name);
      ComesBack(Next(Next(s, Stop(name)), StopEnds(name)), w);
    }
  }

  lemma RecordedPhase(x: Worker)
    requires OnTrack(x) && x.record.Some?
    ensures x.phase.Up? || MayLaunch(x) || x.phase.Rewaiting? || x.phase.Over?
  {
    hide Proper;
  }

  lemma LateStop(s: State, name: Name)
    requires name in s.registry && s.registry[name] < |s.workers|
    requires var x := s.workers[s.registry[name]];
      && x.record.Some? && (x.phase.Up? || MayLaunch(x) || x.phase.Rewaiting? || x.phase.Over?) && Known(s, x) && !InTime(s, x)
      && (x.phase.Rewaiting? ==> x.events != [] && Last(x.events) == Launched(x.phase.pid))
    ensures var t := Next(Next(s, Stop(name)), StopEnds(name));
      var w := s.registry[name];
      Coming(t, w) && Stopped(t.workers[w]) && t.workers[w].phase == s.workers[w].phase && name !in t.registry
  {
  }

  lemma RunningNotDown(s: State, w: nat)
    requires Running(s, w)
    ensures !Down(s, w)
  {
    var events := s.workers[w].events;
    assert events[|events| - 1].Launched?;
  }

  /** A stopped worker stays down for good if and only if the stop is in time. */
  lemma StopHolds(steps: seq<Step>, name: Name)
    requires name in Run(EMPTY, steps).registry
    ensures var s := Run(EMPTY, steps);
      var w := s.registry[name];
      && w < |s.workers|
      && (InTime(s, s.workers[w]) <==> forall more :: Down(Run(Next(s, Stop(name)), more), w))
  {
    var s := Run(EMPTY, steps);
    hide Run, Next, Down, InTime, Known, Ended, OnTrack, Running, OverDead;
    RunFiled(steps);
    var w := s.registry[name];
    if InTime(s, s.workers[w]) {
      RunKeyed(steps, w);
      RunOverDead(steps, w);
      RunOnTrack(steps, w);
      StopRests(s, name);
      forall more ensures Down(Run(Next(s, Stop(name)), more), w) {
        RunAtRest(Next(s, Stop(name)), more, w);
      }
    } else {
      StopTooLate(steps, name);
      RunCons(Next(s, Stop(name)), StopEnds(name), Comeback(s.workers[w].phase, w));
      RunningNotDown(Run(Next(s, Stop(name)), [StopEnds(name)] + Comeback(s.workers[w].phase, w)), w);
    }
  }

  function Last(events: seq<Event>): Event
    requires events != []
  {
    events[|events| - 1]
  }

  /** A run in which a worker's process exits and the handler launches another one. */
  function Restart(name: Name, psk: Psk): (steps: seq<Step>)
    ensures |steps| == 9
  {
    [Start(name, psk), Verified(0, true), Launch(0), Announce(0), Exit(0), Handle(0), Wake(0), Verified(0, true), Launch(0)]
  }

  /** Each late moment comes up in a run. */
  lemma LateMoments(name: Name, psk: Psk, phase: Phase)
    requires phase in {Delayed, Rechecking, Relaunching, Rewaiting(1)}
    ensures exists steps :: 
      var s := Run(EMPTY, steps);
      name in s.registry && s.registry[name] == 0 && |s.workers| == 1 && s.workers[0].phase == phase && !InTime(s, s.workers[0])
  {
    var all := Restart(name, psk);
    var n := if phase == Delayed then 6 else if phase == Rechecking then 7 else if phase == Relaunching then 8 else 9;
    hide Run, Restart;
    RestartRun(name, psk, n);
    var s := Run(EMPTY, all[..n]);
    assert name in s.registry && s.registry[name] == 0;
  }

  lemma RunSnoc(s: State, steps: seq<Step>, n: nat)
    requires n < |steps|
    ensures Run(s, steps[..n + 1]) == Next(Run(s, steps[..n]), steps[n])
  {
    hide Next;
    assert steps[..n + 1][..n] == steps[..n];
  }

  function Restarting(name: Name, psk: Psk, i: nat): State
    requires i <= 9
  {
    var up := Some(Record(0, 0, false, 0));
    var none, one, two := map[], [Process(psk, true)], [Process(psk, false)];
    var exited := [Checked, Launched(0), Exited(0)];
    match i
    case 0 => EMPTY
    case 1 => State([Worker(name, psk, Checking, None, [])], none, [], multiset{})
    case 2 => State([Worker(name, psk, Launching, None, [Checked])], none, [], multiset{})
    case 3 => State([Worker(name, psk, Waiting(0), None, [Checked, Launched(0)])], none, one, multiset{})
    case 4 => State([Worker(name, psk, Up, up, [Checked, Launched(0)])], map[name := 0], one, multiset{})
    case 5 => State([Worker(name, psk, Up, up, [Checked, Launched(0)])], map[name := 0], two, multiset{})
    case 6 => State([Worker(name, psk, Delayed, up, exited)], map[name := 0], two, multiset{})
    case 7 => State([Worker(name, psk, Rechecking, up, exited)], map[name := 0], two, multiset{})
    case 8 => State([Worker(name, psk, Relaunching, up, exited + [Checked])], map[name := 0], two, multiset{})
    case 9 => State([Worker(name, psk, Rewaiting(1), up, exited + [Checked, Launched(1)])], map[name := 0], two + one, multiset{})
  }

  lemma RestartStep(name: Name, psk: Psk, i: nat)
    requires i < 9
    ensures Next(Restarting(name, psk, i), Restart(name, psk)[i]) == Restarting(name, psk, i + 1)
  {
    hide Next, Restart, Restarting;
    if i < 3 { RestartFirst(name, psk, i); } else if i < 6 { RestartMiddle(name, psk, i); } else { RestartLast(name, psk, i); }
  }

  lemma RestartFirst(name: Name, psk: Psk, i: nat)
    requires i < 3
    ensures Next(Restarting(name, psk, i), Restart(name, psk)[i]) == Restarting(name, psk, i + 1)
  {
    var s, s', t := Restarting(name, psk, i), Next(Restarting(name, psk, i), Restart(name, psk)[i]), Restarting(name, psk, i + 1);
    assert s'.workers[0].events == t.workers[0].events;
    assert s'.workers == t.workers && s'.processes == t.processes;
  }

  lemma RestartMiddle(name: Name, psk: Psk, i: nat)
    requires 3 <= i < 6
    ensures Next(Restarting(name, psk, i), Restart(name, psk)[i]) == Restarting(name, psk, i + 1)
  {
    var s, s', t := Restarting(name, psk, i), Next(Restarting(name, psk, i), Restart(name, psk)[i]), Restarting(name, psk, i + 1);
    assert s'.workers[0].events == t.workers[0].events;
    assert s'.workers == t.workers && s'.processes == t.processes && s'.registry == t.registry;
  }

  lemma RestartLast(name: Name, psk: Psk, i: nat)
    requires 6 <= i < 9
    ensures Next(Restarting(name, psk, i), Restart(name, psk)[i]) == Restarting(name, psk, i + 1)
  {
    var s, s', t := Restarting(name, psk, i), Next(Restarting(name, psk, i), Restart(name, psk)[i]), Restarting(name, psk, i + 1);
    assert s'.workers[0].events == t.workers[0].events;
    assert s'.workers == t.workers && s'.processes == t.processes;
  }

  lemma {:induction false} RestartRun(name: Name, psk: Psk, i: nat)
    requires i <= 9
    ensures Run(EMPTY, Restart(name, psk)[..i]) == Restarting(name, psk, i)
  {
    hide Next, Restart, Restarting;
    if i == 0 {
      RunNothing(EMPTY);
      RestartEmpty(name, psk);
    } else {
      RestartRun(name, psk, i - 1);
      RestartStep(name, psk, i - 1);
      RunSnoc(EMPTY, Restart(name, psk), i - 1);
    }
  }

  lemma RestartEmpty(name: Name, psk: Psk)
    ensures |Restart(name, psk)| == 9 && Restarting(name, psk, 0) == EMPTY
  {
  }

  // ----- names -----

  /** A worker that has been registered, is not stopped and not given up. */
  predicate Watched(x: Worker) {
    (x.phase.Up? || MayLaunch(x) || x.phase.Rewaiting?) && x.record.Some? && !x.record.value.stopRequested
  }

  /** A worker that may yet touch the registry entry of its name: it registers itself, or it gives up and removes the entry. */
  predicate MayTouch(s: State, x: Worker) {
    !(x.phase.Over? || (x.phase.Up? && Stopped(x)) || (x.phase.Waiting? && Dead(s, x.phase.pid)))
  }

  /** No two workers of the same name may touch its entry. */
  ghost predicate Distinct(s: State) {
    forall v, w :: 0 <= v < w < |s.workers| && MayTouch(s, s.workers[v]) && MayTouch(s, s.workers[w]) ==>
      s.workers[v].name != s.workers[w].name
  }

  /** No stop is going to remove the entry of a worker that has not been stopped. */
  ghost predicate Unspoiled(s: State) {
    forall w :: 0 <= w < |s.workers| && MayTouch(s, s.workers[w]) && !Stopped(s.workers[w]) ==> s.workers[w].name !in s.stopping
  }

  ghost predicate Supervised(s: State) {
    forall w :: 0 <= w < |s.workers| && Watched(s.workers[w]) ==> Holds(s, w)
  }

  /** The registry entry of its name is this worker's. */
  predicate Holds(s: State, w: nat)
    requires w < |s.workers|
  {
    s.workers[w].name in s.registry && s.registry[s.workers[w].name] == w
  }

  lemma SupervisedStep(s: State, step: Step)
    requires Filed(s) && Distinct(s) && Unspoiled(s) && Supervised(s)
    requires forall w :: 0 <= w < |s.workers| ==> OnTrack(s.workers[w])
    ensures Supervised(Next(s, step))
  {
    hide Next, Supervised, Filed, Distinct, Unspoiled, OnTrack;
    if step.Announce? { SupervisedUp(s, step); }
    else if step.Stop? || step.StopEnds? { SupervisedStop(s, step); }
    else if step.Verified? || step.GiveUp? || step.Handle? { SupervisedDown(s, step); }
    else { SupervisedSame(s, step); }
  }

  lemma SupervisedUp(s: State, step: Step)
    requires Distinct(s) && Supervised(s) && step.Announce?
    requires forall w :: 0 <= w < |s.workers| ==> OnTrack(s.workers[w])
    ensures Supervised(Next(s, step))
  {
    hide Proper;
  }

  lemma SupervisedStop(s: State, step: Step)
    requires Filed(s) && Unspoiled(s) && Supervised(s) && (step.Stop? || step.StopEnds?)
    ensures Supervised(Next(s, step))
  {
  }

  lemma SupervisedDown(s: State, step: Step)
    requires Distinct(s) && Supervised(s) && (step.Verified? || step.GiveUp? || step.Handle?)
    requires forall w :: 0 <= w < |s.workers| ==> OnTrack(s.workers[w])
    ensures Supervised(Next(s, step))
  {
    hide Proper;
  }

  lemma SupervisedSame(s: State, step: Step)
    requires Supervised(s) && (step.Start? || step.Launch? || step.Exit? || step.Wake?)
    ensures Supervised(Next(s, step))
  {
  }

  /** A start for a name whose entry no earlier worker and no stop may touch any more. */
  ghost predicate FreshStart(s: State, step: Step) {
    step.Start? ==> step.name !in s.stopping && forall w :: 0 <= w < |s.workers| && MayTouch(s, s.workers[w]) ==>
      s.workers[w].name != step.name
  }

  ghost predicate FreshStarts(steps: seq<Step>) {
    forall i :: 0 <= i < |steps| ==> FreshStart(Run(EMPTY, steps[..i]), steps[i])
  }

  lemma DistinctStep(s: State, step: Step)
    requires Distinct(s) && FreshStart(s, step) && forall w :: 0 <= w < |s.workers| ==> Known(s, s.workers[w])
    ensures Distinct(Next(s, step))
  {
    hide Next, MayTouch, Known;
    var s' := Next(s, step);
    forall v, w | 0 <= v < w < |s'.workers| && MayTouch(s', s'.workers[v]) && MayTouch(s', s'.workers[w])
      ensures s'.workers[v].name != s'.workers[w].name
    {
      TouchStep(s, step, v);
      TouchStep(s, step, w);
    }
  }

  lemma UnspoiledStep(s: State, step: Step)
    requires Filed(s) && Distinct(s) && Unspoiled(s) && Kept(s) && FreshStart(s, step)
    requires forall w :: 0 <= w < |s.workers| ==> Known(s, s.workers[w]) && OnTrack(s.workers[w])
    ensures Unspoiled(Next(s, step))
  {
    hide Next, MayTouch, Known, Stopped, Kept, Distinct, Filed, OnTrack;
    var s' := Next(s, step);
    forall w | 0 <= w < |s'.workers| && MayTouch(s', s'.workers[w]) && !Stopped(s'.workers[w])
      ensures s'.workers[w].name !in s'.stopping
    {
      TouchStep(s, step, w);
      StopsStay(s, step);
      if w < |s.workers| && Stopped(s.workers[w]) { StoppedStep(s, step, w); }
      if step.Stop? && w < |s.workers| && step.name == s.workers[w].name { NotBoth(s, step.name, w); }
    }
  }

  lemma StopsStay(s: State, step: Step)
    ensures forall name :: name in Next(s, step).stopping && name !in s.stopping ==> step == Stop(name)
    ensures step.Start? ==> Next(s, step).stopping == s.stopping
  {
  }

  /** Whoever else has the name of a worker that is being stopped is out of the way, or stopped, too. */
  lemma NotBoth(s: State, name: Name, w: nat)
    requires Distinct(s) && Unspoiled(s) && Kept(s) && Filed(s) && w < |s.workers| && s.workers[w].name == name
    requires w < |Next(s, Stop(name)).workers| && MayTouch(s, s.workers[w]) && !Stopped(Next(s, Stop(name)).workers[w])
    ensures name !in Next(s, Stop(name)).stopping
  {
    if name in s.registry {
      var v := s.registry[name];
      assert KeptWorker(s, name, s.workers[v]);
    }
  }

  /** Once a worker may not touch its entry, it never may. */
  lemma TouchStep(s: State, step: Step, w: nat)
    requires w < |Next(s, step).workers| && (w < |s.workers| ==> Known(s, s.workers[w]))
    ensures w < |s.workers| ==> Next(s, step).workers[w].name == s.workers[w].name
    ensures w < |s.workers| && MayTouch(Next(s, step), Next(s, step).workers[w]) ==> MayTouch(s, s.workers[w])
    ensures w >= |s.workers| ==> step.Start? && w == |s.workers| && Next(s, step).workers[w].name == step.name
  {
    hide Next, MayTouch, Known;
    if Starting(step) { TouchStart(s, step, w); } else { TouchChange(s, step, w); }
  }

  lemma TouchStart(s: State, step: Step, w: nat)
    requires w < |Next(s, step).workers| && (w < |s.workers| ==> Known(s, s.workers[w])) && Starting(step)
    ensures w < |s.workers| ==> Next(s, step).workers[w].name == s.workers[w].name
    ensures w < |s.workers| && MayTouch(Next(s, step), Next(s, step).workers[w]) ==> MayTouch(s, s.workers[w])
    ensures w >= |s.workers| ==> step.Start? && w == |s.workers| && Next(s, step).workers[w].name == step.name
  {
  }

  lemma TouchChange(s: State, step: Step, w: nat)
    requires w < |Next(s, step).workers| && (w < |s.workers| ==> Known(s, s.workers[w])) && !Starting(step)
    ensures w < |s.workers| && Next(s, step).workers[w].name == s.workers[w].name
    ensures MayTouch(Next(s, step), Next(s, step).workers[w]) ==> MayTouch(s, s.workers[w])
  {
    hide Next, MayTouch, Known;
    if step.Verified? || step.Handle? { TouchDecided(s, step, w); } else { TouchElse(s, step, w); }
  }

  lemma TouchDecided(s: State, step: Step, w: nat)
    requires w < |Next(s, step).workers| && (w < |s.workers| ==> Known(s, s.workers[w])) && (step.Verified? || step.Handle?)
    ensures w < |s.workers| && Next(s, step).workers[w].name == s.workers[w].name
    ensures MayTouch(Next(s, step), Next(s, step).workers[w]) ==> MayTouch(s, s.workers[w])
  {
  }

  lemma TouchElse(s: State, step: Step, w: nat)
    requires w < |Next(s, step).workers| && (w < |s.workers| ==> Known(s, s.workers[w]))
    requires step.Exit? || step.Wake? || step.Stop? || step.StopEnds?
    ensures w < |s.workers| && Next(s, step).workers[w].name == s.workers[w].name
    ensures MayTouch(Next(s, step), Next(s, step).workers[w]) ==> MayTouch(s, s.workers[w])
  {
  }

  lemma FreshInit(steps: seq<Step>)
    requires FreshStarts(steps) && steps != []
    ensures FreshStarts(steps[..|steps| - 1]) && FreshStart(Run(EMPTY, steps[..|steps| - 1]), steps[|steps| - 1])
  {
    hide Run, FreshStart;
    var less := steps[..|steps| - 1];
    forall i | 0 <= i < |less| ensures FreshStart(Run(EMPTY, less[..i]), less[i]) {
      assert less[..i] == steps[..i];
    }
  }

  /** Where each start is fresh, a worker that is up or coming up again and not stopped is registered. */
  lemma {:induction false} RunSupervised(steps: seq<Step>)
    requires FreshStarts(steps)
    ensures Distinct(Run(EMPTY, steps)) && Unspoiled(Run(EMPTY, steps)) && Supervised(Run(EMPTY, steps))
  {
    if steps != [] {
      hide Distinct, Unspoiled, Supervised, Next, Filed, Kept, OnTrack, FreshStart, FreshStarts, Known, Keyed, Ended;
      var s := Run(EMPTY, steps[..|steps| - 1]);
      FreshInit(steps);
      RunKept(steps[..|steps| - 1]);
      RunSupervised(steps[..|steps| - 1]);
      RunFiled(steps[..|steps| - 1]);
      forall w | 0 <= w < |s.workers| ensures OnTrack(s.workers[w]) && Known(s, s.workers[w]) {
        RunOnTrack(steps[..|steps| - 1], w);
        RunKeyed(steps[..|steps| - 1], w);
      }
      DistinctStep(s, steps[|steps| - 1]);
      UnspoiledStep(s, steps[|steps| - 1]);
      SupervisedStep(s, steps[|steps| - 1]);
    }
  }

  // ----- what a start that is not fresh leads to -----

  /** The next thing an older worker does on its way to the entry of its name: it registers itself or fails. */
  function Spoiler(s: State, v: nat): (step: Step)
    requires v < |s.workers|
    ensures !step.Start?
  {
    var x := s.workers[v];
    match x.phase
    case Checking => Verified(v, true)
    case Launching => Launch(v)
    case Waiting(_) => Announce(v)
    case Up => if x.record.Some? && Alive(s, x.record.value.process) then Exit(x.record.value.process) else Handle(v)
    case Delayed => Wake(v)
    case Rechecking => Verified(v, false)
    case _ => GiveUp(v)
  }

  /** How far that is. */
  function Distance(s: State, x: Worker): nat {
    match x.phase
    case Checking => 3
    case Launching => 2
    case Waiting(_) => 1
    case Up => if x.record.Some? && Alive(s, x.record.value.process) then 4 else 3
    case Delayed => 2
    case Rechecking => 1
    case _ => 0
  }

  /** A worker that is up and not stopped, without the entry of its name. */
  predicate Lost(s: State, w: nat) {
    w < |s.workers| && s.workers[w].phase.Up? && Watched(s.workers[w]) && !Holds(s, w)
  }

  predicate Namesakes(s: State, v: nat, w: nat) {
    && v < |s.workers| && w < |s.workers| && v != w && s.workers[v].name == s.workers[w].name
    && s.workers[w].phase.Up? && Watched(s.workers[w]) && MayTouch(s, s.workers[v])
  }

  lemma SpoilerStep(s: State, v: nat, w: nat)
    requires Namesakes(s, v, w) && Known(s, s.workers[v]) && OnTrack(s.workers[v])
    ensures var t := Next(s, Spoiler(s, v));
      Lost(t, w) || (Namesakes(t, v, w) && Distance(t, t.workers[v]) < Distance(s, s.workers[v]))
  {
    hide Proper;
  }

  ghost predicate NoStart(steps: seq<Step>) { forall i :: 0 <= i < |steps| ==> !steps[i].Start? }

  lemma {:induction false} Spoils(s: State, v: nat, w: nat) returns (steps: seq<Step>)
    requires Namesakes(s, v, w) && Known(s, s.workers[v]) && OnTrack(s.workers[v])
    ensures NoStart(steps) && Lost(Run(s, steps), w)
    decreases Distance(s, s.workers[v])
  {
    hide Next, Lost, Spoiler, Known, OnTrack, Run;
    SpoilerStep(s, v, w);
    var t := Next(s, Spoiler(s, v));
    var rest := [];
    if Lost(t, w) {
      RunNothing(t);
    } else {
      KnownStep(s, Spoiler(s, v), v);
      OnTrackStep(s, Spoiler(s, v), v);
      rest := Spoils(t, v, w);
    }
    steps := [Spoiler(s, v)] + rest;
    RunCons(s, Spoiler(s, v), rest);
  }

  /** The newer worker comes up while the older one stays where it is. */
  function Rise(w: nat): seq<Step> { [Verified(w, true), Launch(w), Announce(w)] }

  lemma Risen(s: State, name: Name, psk: Psk)
    ensures var w := |s.workers|;
      var t := Next(Next(Next(Next(s, Start(name, psk)), Verified(w, true)), Launch(w)), Announce(w));
      && |t.workers| == w + 1 && t.workers[..w] == s.workers && t.workers[w].name == name
      && t.workers[w].phase.Up? && Watched(t.workers[w]) && t.workers[w].psk == psk
      && t.workers[w].record == Some(Record(|s.processes|, |s.processes|, false, 0))
      && t.processes == s.processes + [Process(psk, true)] && t.registry == s.registry[name := w] && t.stopping == s.stopping
  {
    var w := |s.workers|;
    var s1 := Next(s, Start(name, psk));
    var s2 := Next(s1, Verified(w, true));
    assert s1.workers[..w] == s.workers && s2.workers[..w] == s.workers && s2.workers[w].phase.Launching? && s2.workers[w].record == None;
    var s3 := Next(s2, Launch(w));
    assert s3.workers[..w] == s.workers && s3.workers[w].phase == Waiting(|s.processes|) && Alive(s3, |s.processes|);
    assert s3.processes == s.processes + [Process(psk, true)] && s3.workers[w].record == None;
    var t := Next(s3, Announce(w));
    assert t.workers[..w] == s.workers;
  }

  /** Before the last of these steps nothing is registered and no record is made. */
  lemma RisenSteps(s: State, name: Name, psk: Psk)
    ensures var w := |s.workers|;
      var s1 := Next(s, Start(name, psk)); var s2 := Next(s1, Verified(w, true)); var s3 := Next(s2, Launch(w));
      && |s1.processes| == |s2.processes| == |s.processes| && |s3.processes| == |s.processes| + 1
      && |s3.workers| == w + 1 && s3.workers[w].record == None && |Next(s3, Announce(w)).processes| == |s3.processes|
  {
    var w := |s.workers|;
    var s1 := Next(s, Start(name, psk));
    var s2 := Next(s1, Verified(w, true));
    assert s2.workers[w].phase.Launching? && s2.workers[w].record == None;
    var s3 := Next(s2, Launch(w));
  }

  lemma RunThree(s: State, a: Step, b: Step, c: Step)
    ensures Run(s, [a, b, c]) == Next(Next(Next(s, a), b), c)
  {
    hide Next;
    assert [a] + [] == [a] && [b] + [c] == [b, c] && [a] + [b, c] == [a, b, c] && [c] + [] == [c];
    RunCons(s, a, [b, c]);
    RunCons(Next(s, a), b, [c]);
    RunCons(Next(Next(s, a), b), c, []);
    RunNothing(Next(Next(Next(s, a), b), c));
  }

  lemma {:induction false} RunMore(s: State, steps: seq<Step>, more: seq<Step>)
    ensures Run(s, steps + more) == Run(Run(s, steps), more)
  {
    hide Next;
    if more == [] {
      assert steps + more == steps;
    } else {
      RunMore(s, steps, more[..|more| - 1]);
      assert (steps + more)[..|steps + more| - 1] == steps + more[..|more| - 1];
    }
  }

  lemma OlderStays(s: State, t: State, v: nat, w: nat, psk: Psk)
    requires v < w == |s.workers| < |t.workers| && t.workers[..w] == s.workers && t.processes == s.processes + [Process(psk, true)]
    requires Known(s, s.workers[v]) && OnTrack(s.workers[v]) && MayTouch(s, s.workers[v])
    ensures t.workers[v] == s.workers[v] && Known(t, t.workers[v]) && OnTrack(t.workers[v]) && MayTouch(t, t.workers[v])
  {
    hide OnTrack;
    assert t.workers[v] == t.workers[..w][v];
  }

  lemma StopSpoils(s: State, w: nat)
    requires w < |s.workers| && s.workers[w].phase.Up? && Watched(s.workers[w]) && s.workers[w].name in s.stopping
    ensures Lost(Next(s, StopEnds(s.workers[w].name)), w)
  {
  }

  /** A start that is not fresh: the newer worker comes up and loses its entry to the older one, without any further start. */
  lemma NameClash(steps: seq<Step>, name: Name, psk: Psk) returns (more: seq<Step>)
    requires !FreshStart(Run(EMPTY, steps), Start(name, psk))
    ensures NoStart(more) && Lost(Run(Next(Run(EMPTY, steps), Start(name, psk)), more), |Run(EMPTY, steps).workers|)
  {
    hide Next, Run, Known, OnTrack, Lost, MayTouch, Keyed, Ended, Watched;
    var s := Run(EMPTY, steps);
    var w := |s.workers|;
    Risen(s, name, psk);
    var s1 := Next(s, Start(name, psk));
    RunThree(s1, Verified(w, true), Launch(w), Announce(w));
    var t := Run(s1, Rise(w));
    var rest;
    if name in s.stopping {
      rest := [StopEnds(name)];
      RunCons(t, StopEnds(name), []);
      RunNothing(Next(t, StopEnds(name)));
      assert [StopEnds(name)] + [] == [StopEnds(name)];
      StopSpoils(t, w);
    } else {
      var v :| 0 <= v < w && MayTouch(s, s.workers[v]) && s.workers[v].name == name;
      RunOnTrack(steps, v);
      RunKeyed(steps, v);
      OlderStays(s, t, v, w, psk);
      rest := Spoils(t, v, w);
    }
    RunMore(s1, Rise(w), rest);
    more := Rise(w) + rest;
  }

  lemma {:induction false} FreshMore(steps: seq<Step>, name: Name, psk: Psk, more: seq<Step>)
    requires FreshStarts(steps) && FreshStart(Run(EMPTY, steps), Start(name, psk)) && NoStart(more)
    ensures FreshStarts(steps + [Start(name, psk)] + more)
  {
    hide Run, Next;
    var all := steps + [Start(name, psk)] + more;
    forall i | 0 <= i < |all| ensures FreshStart(Run(EMPTY, all[..i]), all[i]) {
      if i < |steps| {
        assert all[..i] == steps[..i];
      } else if i == |steps| {
        assert all[..i] == steps;
      } else {
        assert all[i] == more[i - |steps| - 1];
      }
    }
  }

  /** After fresh starts, one more start keeps every worker that is up in the registry if and only if it is fresh. */
  lemma FreshIff(steps: seq<Step>, name: Name, psk: Psk)
    requires FreshStarts(steps)
    ensures FreshStart(Run(EMPTY, steps), Start(name, psk)) <==>
      forall more :: NoStart(more) ==> Supervised(Run(Next(Run(EMPTY, steps), Start(name, psk)), more))
  {
    hide Next, Run, Supervised, FreshStart, FreshStarts, NoStart;
    var s1 := Next(Run(EMPTY, steps), Start(name, psk));
    RunLast(steps, Start(name, psk));
    if FreshStart(Run(EMPTY, steps), Start(name, psk)) {
      forall more | NoStart(more) ensures Supervised(Run(s1, more)) {
        FreshMore(steps, name, psk, more);
        RunSupervised(steps + [Start(name, psk)] + more);
        RunMore(EMPTY, steps + [Start(name, psk)], more);
      }
    } else {
      var more := NameClash(steps, name, psk);
      LostUnsupervised(Run(s1, more), |Run(EMPTY, steps).workers|);
    }
  }

  lemma RunLast(steps: seq<Step>, step: Step)
    ensures Run(EMPTY, steps + [step]) == Next(Run(EMPTY, steps), step)
  {
    hide Next;
    assert (steps + [step])[..|steps|] == steps;
  }

  lemma LostUnsupervised(s: State, w: nat)
    requires Lost(s, w)
    ensures !Supervised(s)
  {
  }

  /** Starting a worker that is up a second time is not fresh, so the second one can get lost. */
  lemma StartedTwice(name: Name, psk: Psk, psk': Psk) returns (more: seq<Step>)
    ensures var s := Run(EMPTY, Restart(name, psk)[..4]);
      && name in s.registry && |s.workers| == 1 && NoStart(more)
      && Lost(Run(Next(s, Start(name, psk')), more), 1)
  {
    hide Run, Next, Restart, Lost;
    RestartRun(name, psk, 4);
    assert MayTouch(Restarting(name, psk, 4), Restarting(name, psk, 4).workers[0]);
    more := NameClash(Restart(name, psk)[..4], name, psk');
  }

  /** So is starting a worker while it is being stopped: the stop then removes the entry of the new one. */
  lemma StartedInStop(name: Name, psk: Psk, psk': Psk) returns (more: seq<Step>)
    ensures var s := Next(Run(EMPTY, Restart(name, psk)[..4]), Stop(name));
      && |s.workers| == 1 && !MayTouch(s, s.workers[0]) && NoStart(more)
      && Lost(Run(Next(s, Start(name, psk')), more), 1)
  {
    hide Run, Restart, Lost;
    RestartRun(name, psk, 4);
    var steps := Restart(name, psk)[..4] + [Stop(name)];
    RunLast(Restart(name, psk)[..4], Stop(name));
    var s := Next(Restarting(name, psk, 4), Stop(name));
    assert name in s.stopping && s.workers[0].phase.Up? && Stopped(s.workers[0]);
    more := NameClash(steps, name, psk');
  }

  // ----- four launches -----

  /** An exit, and all that goes well after it. */
  function Round(pid: Pid, w: nat): (steps: seq<Step>)
    ensures |steps| == 6
  {
    [Exit(pid), Handle(w), Wake(w)] + [Verified(w, true), Launch(w), Announce(w)]
  }

  lemma RoundEnds(s: State, w: nat)
    requires w < |s.workers| && s.workers[w].phase.Up? && Watched(s.workers[w])
    requires s.workers[w].record.value.process < |s.processes| && s.workers[w].record.value.restarts < 3
    ensures var x, pid := s.workers[w], s.workers[w].record.value.process;
      Next(Next(Next(s, Exit(pid)), Handle(w)), Wake(w))
        == s.(workers := s.workers[w := x.(phase := Rechecking, events := x.events + [Exited(pid)])],
              processes := s.processes[pid := s.processes[pid].(alive := false)])
  {
    var x, pid := s.workers[w], s.workers[w].record.value.process;
    var t := Next(Next(s, Exit(pid)), Handle(w));
    assert t.workers[w] == x.(phase := Delayed, events := x.events + [Exited(pid)]);
    assert Next(t, Wake(w)).workers == s.workers[w := x.(phase := Rechecking, events := x.events + [Exited(pid)])];
  }

  lemma RoundBegins(s: State, w: nat)
    requires w < |s.workers| && s.workers[w].phase.Rechecking? && s.workers[w].record.Some?
    ensures var x, n := s.workers[w], |s.processes|;
      Next(Next(Next(s, Verified(w, true)), Launch(w)), Announce(w))
        == s.(workers := s.workers[w := x.(phase := Up, events := x.events + [Checked] + [Launched(n)],
                record := Some(x.record.value.(process := n, announced := n, restarts := x.record.value.restarts + 1)))],
              processes := s.processes + [Process(x.psk, true)])
  {
    var x, n := s.workers[w], |s.processes|;
    var s1 := Next(s, Verified(w, true));
    assert s1.workers[w] == x.(phase := Relaunching, events := x.events + [Checked]);
    var s2 := Next(s1, Launch(w));
    assert s2.workers[w] == x.(phase := Rewaiting(n), events := x.events + [Checked] + [Launched(n)]) && Alive(s2, n);
    var t := Next(s2, Announce(w));
    assert t.workers == s.workers[w := t.workers[w]];
  }

  /** In every run, a worker that is up, not stopped and launched fewer than four times can come up once more after its exit:
      registered as it was, with the same key, under the new process. */
  lemma Relaunched(steps: seq<Step>, w: nat)
    requires w < |Run(EMPTY, steps).workers|
    requires Run(EMPTY, steps).workers[w].phase.Up? && Watched(Run(EMPTY, steps).workers[w])
    requires Launches(Run(EMPTY, steps).workers[w].events) < 4
    ensures var s := Run(EMPTY, steps);
      var x, n := s.workers[w], |s.processes|;
      var t := Run(EMPTY, steps + Round(x.record.value.process, w));
      && |t.workers| == |s.workers| && t.workers == s.workers[w := t.workers[w]] && t.registry == s.registry
      && t.workers[w].phase.Up? && Watched(t.workers[w]) && Launches(t.workers[w].events) == Launches(x.events) + 1
      && t.workers[w].record.value.process == t.workers[w].record.value.announced == n
      && |t.processes| == n + 1 && t.processes[n] == Process(x.psk, true)
  {
    hide Run, Next, Proper, Launches;
    var s := Run(EMPTY, steps);
    var x := s.workers[w];
    RunOnTrack(steps, w);
    RunKeyed(steps, w);
    LaunchCount(x.events);
    RoundEnds(s, w);
    var pid := x.record.value.process;
    RunThree(s, Exit(pid), Handle(w), Wake(w));
    var s1 := Run(s, [Exit(pid), Handle(w), Wake(w)]);
    RoundBegins(s1, w);
    RunThree(s1, Verified(w, true), Launch(w), Announce(w));
    RunMore(s, [Exit(pid), Handle(w), Wake(w)], [Verified(w, true), Launch(w), Announce(w)]);
    RunMore(EMPTY, steps, Round(pid, w));
    LaunchesMore(x.events, Exited(pid));
    LaunchesMore(x.events + [Exited(pid)], Checked);
    LaunchesMore(x.events + [Exited(pid)] + [Checked], Launched(|s.processes|));
  }

  /** Four launches of one worker do happen. */
  lemma FourLaunches(name: Name, psk: Psk) returns (steps: seq<Step>)
    ensures var s := Run(EMPTY, steps);
      && |s.workers| == 1 && s.workers[0].phase.Up? && Watched(s.workers[0]) && s.registry == map[name := 0]
      && Launches(s.workers[0].events) == 4
  {
    hide Run, Next, Restart, Round;
    steps := Restart(name, psk)[..4];
    RestartRun(name, psk, 4);
    LaunchesMore([Checked], Launched(0));
    assert [Checked] + [Launched(0)] == [Checked, Launched(0)] && Launches([Checked]) == 0;
    var i := 1;
    while i < 4
      invariant 1 <= i <= 4
      invariant |Run(EMPTY, steps).workers| == 1 && Run(EMPTY, steps).registry == map[name := 0]
      invariant Run(EMPTY, steps).workers[0].phase.Up? && Watched(Run(EMPTY, steps).workers[0])
      invariant Launches(Run(EMPTY, steps).workers[0].events) == i
    {
      Relaunched(steps, 0);
      steps := steps + Round(Run(EMPTY, steps).workers[0].record.value.process, 0);
      i := i + 1;
    }
  }

  // ----- failed starts -----

  lemma {:induction false} RunOver(s: State, steps: seq<Step>, w: nat)
    requires w < |s.workers| && s.workers[w].phase.Over?
    ensures var t := Run(s, steps); w < |t.workers| && t.workers[w].phase.Over? && t.workers[w].events == s.workers[w].events
  {
    if steps != [] {
      hide Next;
      RunOver(s, steps[..|steps| - 1], w);
      OverStep(Run(s, steps[..|steps| - 1]), steps[|steps| - 1], w);
    }
  }

  lemma OverStep(s: State, step: Step, w: nat)
    requires w < |s.workers| && s.workers[w].phase.Over?
    ensures w < |Next(s, step).workers| && Next(s, step).workers[w].phase.Over?
    ensures Next(s, step).workers[w].events == s.workers[w].events
  {
    hide Next;
    if Starting(step) { OverStart(s, step, w); } else { OverElse(s, step, w); }
  }

  lemma OverStart(s: State, step: Step, w: nat)
    requires w < |s.workers| && s.workers[w].phase.Over? && Starting(step)
    ensures w < |Next(s, step).workers| && Next(s, step).workers[w].phase.Over?
    ensures Next(s, step).workers[w].events == s.workers[w].events
  {
  }

  lemma OverElse(s: State, step: Step, w: nat)
    requires w < |s.workers| && s.workers[w].phase.Over? && !Starting(step)
    ensures w < |Next(s, step).workers| && Next(s, step).workers[w].phase.Over?
    ensures Next(s, step).workers[w].events == s.workers[w].events
  {
  }

  /** A check that is not clean, or no announcement in time. */
  predicate Fails(x: Worker, w: nat, step: Step) {
    || (step == Verified(w, false) && (x.phase.Checking? || x.phase.Rechecking?))
    || (step == GiveUp(w) && (x.phase.Launching? || x.phase.Waiting? || x.phase.Relaunching? || x.phase.Rewaiting?))
  }

  lemma FailStep(s: State, step: Step, w: nat)
    requires w < |s.workers| && Fails(s.workers[w], w, step) && OnTrack(s.workers[w])
    ensures var x, t := s.workers[w], Next(s, step);
      && t.workers == s.workers[w := x.(phase := Over)] && t.stopping == s.stopping
      && t.registry == (if x.record.Some? then s.registry - {x.name} else s.registry)
      && |t.processes| == |s.processes|
      && forall pid :: 0 <= pid < |s.processes| && t.processes[pid] != s.processes[pid] ==>
        x.events != [] && Last(x.events) == Launched(pid)
  {
    hide Proper;
  }

  /** In every run, a start or restart that fails ends its worker for good: whatever happens after that, it is not launched
      again, and none of its processes runs. If it had been registered the entry of its name goes, and nothing else changes. */
  lemma FailsForGood(steps: seq<Step>, step: Step, w: nat, more: seq<Step>)
    requires w < |Run(EMPTY, steps).workers| && Fails(Run(EMPTY, steps).workers[w], w, step)
    ensures var s := Run(EMPTY, steps);
      var x, t := s.workers[w], Next(s, step);
      && t.workers == s.workers[w := x.(phase := Over)] && t.stopping == s.stopping
      && t.registry == (if x.record.Some? then s.registry - {x.name} else s.registry)
      && |t.processes| == |s.processes|
      && forall pid :: 0 <= pid < |s.processes| && t.processes[pid] != s.processes[pid] ==>
        x.events != [] && Last(x.events) == Launched(pid)
    ensures var u := Run(Next(Run(EMPTY, steps), step), more);
      Down(u, w) && u.workers[w].phase.Over? && Launches(u.workers[w].events) == Launches(Run(EMPTY, steps).workers[w].events)
  {
    hide Run, Next, Proper, Launches, Ended;
    var s := Run(EMPTY, steps);
    RunOnTrack(steps, w);
    FailStep(s, step, w);
    RunOver(Next(s, step), more, w);
    RunLast(steps, step);
    RunMore(EMPTY, steps + [step], more);
    var u := Run(EMPTY, steps + [step] + more);
    RunOnTrack(steps + [step] + more, w);
    RunKeyed(steps + [step] + more, w);
    RunOverDead(steps + [step] + more, w);
    EarlierDead(u, u.workers[w]);
  }

  /** A stop during which nothing else happens: in every run it kills the process of the record it finds, marks the record,
      removes the entry of the name, and does nothing else. */
  lemma StopAlone(steps: seq<Step>, name: Name)
    ensures var s := Run(EMPTY, steps);
      var t := Next(Next(s, Stop(name)), StopEnds(name));
      if name in s.registry then
        var w := s.registry[name];
        && w < |s.workers| && s.workers[w].record.Some?
        && var r := s.workers[w].record.value;
        && r.process < |s.processes|
        && t == s.(registry := s.registry - {name}, workers := s.workers[w := s.workers[w].(record := Some(r.(stopRequested := true)))],
                   processes := s.processes[r.process := s.processes[r.process].(alive := false)])
      else Next(s, Stop(name)) == s
  {
    hide Run, Keyed, Ended;
    RunFiled(steps);
    var s := Run(EMPTY, steps);
    if name in s.registry {
      RunKeyed(steps, s.registry[name]);
      assert s.stopping + multiset{name} - multiset{name} == s.stopping;
    }
  }
}

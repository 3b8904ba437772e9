/**
 When the scheduler's lock comes free, and when it never does.
 */
module ProtocolProgress {
  import opened Wrappers
  import opened Workers
  import opened WorkerTable
  import opened Queues
  import opened Scheduler
  import opened Protocol
  import opened ProtocolInvariant
  import opened ProtocolSafety
  import opened ProtocolTheorems

  /** The lock holder is at a write to this connection's full channel. */
  predicate Blocked(s: State, g: GUID) {
    Target(s.lock) == Some(g) && g in s.conns && s.conns[g].channel != []
  }

  /** The write inside schedule never blocks. */
  lemma ScheduleNeverBlocks(trace: seq<State>, steps: seq<Step>, i: nat)
    requires IsRun(trace, steps) && i < |trace| && trace[i].lock.Offering?
    ensures !Blocked(trace[i], trace[i].lock.guid)
  {
    LinkedAlways(trace, steps, i);
    hide IsRun;
    ConnAlways(trace, steps, i, trace[i].lock.guid);
  }

  /** A write in the dispatch loop blocks only on an unread Queued.  Unless a
      send on that connection has failed, its waiter is then still in its loop,
      has not taken a valid reply and does not want the lock: it is in select or
      reminding the client. */
  lemma BlockedWaiterIsInItsLoop(trace: seq<State>, steps: seq<Step>, i: nat, g: GUID)
    requires IsRun(trace, steps) && i < |trace| && Blocked(trace[i], g)
    ensures trace[i].conns[g].channel == [Queued]
    ensures !trace[i].conns[g].broken ==> trace[i].conns[g].waiter.Looping? || trace[i].conns[g].waiter.Reminding?
  {
    hide IsRun;
    ConnAlways(trace, steps, i, g);
  }

  // ---------- Paths ----------

  /** A finite continuation of a state. */
  ghost predicate IsPath(trace: seq<State>, steps: seq<Step>) {
    |trace| == |steps| + 1 &&
    forall i :: 0 <= i < |steps| ==>
      Linked(trace[i]) && Enabled(trace[i], steps[i]) && trace[i + 1] == Next(trace[i], steps[i])
  }

  /** Some continuation of s reaches a state in which the lock is free. */
  ghost predicate CanComeFree(s: State) {
    exists trace: seq<State>, steps: seq<Step> ::
      IsPath(trace, steps) && trace[0] == s && trace[|steps|].lock.Free?
  }

  /** Every step of the path is one of the lock holder or of a waiter that it
      waits for, and the path ends with the lock free. */
  ghost predicate IsHelpingPath(trace: seq<State>, steps: seq<Step>) {
    IsPath(trace, steps) && (forall i :: 0 <= i < |steps| ==> Helps(steps[i])) && trace[|steps|].lock.Free?
  }

  lemma ExtendPath(s: State, step: Step, trace: seq<State>, steps: seq<Step>)
    requires Linked(s) && Enabled(s, step) && Helps(step)
    requires IsHelpingPath(trace, steps) && trace[0] == Next(s, step)
    ensures IsHelpingPath([s] + trace, [step] + steps)
  {
    hide Enabled, Next, Linked, Helps;
    var trace', steps' := [s] + trace, [step] + steps;
    assert forall i :: 0 < i < |steps'| ==> trace'[i] == trace[i - 1] && steps'[i] == steps[i - 1];
    assert trace'[|steps'|] == trace[|steps|];
  }

  /** The waiter left its loop, or wants the lock to leave it. */
  predicate Abandoned(c: Conn) {
    c.waiter.Left? || c.waiter.Cancelling?
  }

  /** A queued request that some worker can serve, whose channel is full and
      which nobody will read again. */
  ghost predicate Doomed(s: State, g: GUID) {
    g in s.queue && g in s.conns && Servable(s.workers, s.conns[g].nets) &&
    Abandoned(s.conns[g]) && s.conns[g].channel != []
  }

  // ---------- The lock comes free unless a request is doomed ----------

  /** How far the lock holder and the waiter it writes to are from the next
      round of the dispatch loop. */
  function Distance(s: State): nat
    requires Linked(s)
  {
    match s.lock
    case Free => 0
    case Offering(_, _) => 1
    case Granting(g, _, _) =>
      if s.conns[g].channel == [] then 1 else if s.conns[g].waiter.Looping? then 2 else 3
    case Dispatching => 4
  }

  lemma FirstServableExists(s: State) returns (i: nat)
    requires Linked(s) && !Quiet(s)
    ensures FirstAt(s.queue, ServableIn(s), i)
  {
    hide Servable;
    i := 0;
    while !Servable(s.workers, s.conns[s.queue[i]].nets)
      invariant i < |s.queue|
      invariant forall j :: 0 <= j < i ==> !Servable(s.workers, s.conns[s.queue[j]].nets)
      invariant exists j :: i <= j < |s.queue| && Servable(s.workers, s.conns[s.queue[j]].nets)
      decreases |s.queue| - i
    {
      i := i + 1;
    }
  }

  /** A step of the lock holder or of a waiter that its connection serves. */
  predicate Helps(step: Step) {
    step.Deliver? || step.Pick? || step.Release? || step.Receive? || step.SendOk?
  }

  lemma RelayedValidIsNotQueued(s: State, g: GUID)
    requires Base(s) && g in s.conns && s.conns[g].waiter.Relaying? && s.conns[g].waiter.reply.Valid?
    ensures g !in s.queue
  {
    assert ConnOk(s.conns[g], g in s.queue, PendingFor(s.lock, g));
  }

  lemma HelpingDoomsNobody(s: State, step: Step, g: GUID)
    requires Inv(s) && Enabled(s, step) && Helps(step) && !Doomed(s, g)
    ensures !Doomed(Next(s, step), g)
  {
    hide Servable, Dispatches, ArrivalReply, ConnsOk, TableOk, JustifiedOk, FifoOk, LifeOk, Apply, FirstAt, ServableIn;
    if step.Deliver? && s.lock.Granting? {
      TakenOut(s, s.lock.index);
    }
    if step.SendOk? && s.conns[step.g].waiter.Relaying? && s.conns[step.g].waiter.reply.Valid? {
      RelayedValidIsNotQueued(s, step.g);
    }
  }

  lemma GrantedIsQueued(s: State)
    requires Base(s) && s.lock.Granting?
    ensures var c := s.conns[s.lock.guid];
            |c.channel| <= 1 && (c.channel != [] ==> c.waiter.Looping? || c.waiter.Reminding? || Abandoned(c))
  {
    var g := s.lock.guid;
    assert ConnOk(s.conns[g], g in s.queue, PendingFor(s.lock, g));
  }

  lemma OfferHasRoom(s: State)
    requires Base(s) && s.lock.Offering?
    ensures s.conns[s.lock.guid].channel == []
  {
    var g := s.lock.guid;
    assert ConnOk(s.conns[g], g in s.queue, PendingFor(s.lock, g));
  }

  /** The step that brings the lock holder closer to letting go. */
  lemma NextHelp(s: State) returns (step: Step)
    requires Inv(s) && !s.lock.Free? && forall g :: !Doomed(s, g)
    ensures Enabled(s, step) && Helps(step)
    ensures Linked(Next(s, step))
    ensures |Next(s, step).queue| < |s.queue| ||
            (|Next(s, step).queue| == |s.queue| && Distance(Next(s, step)) < Distance(s))
  {
    hide Servable, Dispatches, ArrivalReply, ConnsOk, QueueOk, TableOk, JustifiedOk, FifoOk, LifeOk, Apply, Quiet;
    match s.lock {
      case Offering(g, _) =>
        OfferHasRoom(s);
        step := Deliver;
      case Granting(g, i, _) =>
        GrantedIsQueued(s);
        assert !Doomed(s, g);
        step := if s.conns[g].channel == [] then Deliver
        else if s.conns[g].waiter.Looping? then Receive(g)
        else SendOk(g);
      case Dispatching =>
        if Quiet(s) {
          step := Release;
        } else {
          var i := FirstServableExists(s);
          var reply := ReplyExists(s.workers, s.conns[s.queue[i]].nets);
          step := Pick(i, reply);
        }
    }
    LinkedStep(s, step);
  }

  lemma {:induction false} HelpingPath(s: State) returns (trace: seq<State>, steps: seq<Step>)
    requires Inv(s) && forall g :: !Doomed(s, g)
    ensures IsHelpingPath(trace, steps) && trace[0] == s
    decreases |s.queue|, Distance(s)
  {
    hide QueueOk, ConnsOk, LockOk, TableOk, JustifiedOk, FifoOk, LifeOk, Doomed, Next, Enabled, Helps;
    if s.lock.Free? {
      trace, steps := [s], [];
    } else {
      var step := NextHelp(s);
      InvStep(s, step);
      forall g
        ensures !Doomed(Next(s, step), g)
      {
        HelpingDoomsNobody(s, step, g);
      }
      trace, steps := HelpingPath(Next(s, step));
      ExtendPath(s, step, trace, steps);
      trace, steps := [s] + trace, [step] + steps;
    }
  }

  lemma ComesFree(s: State)
    requires Inv(s) && forall g :: !Doomed(s, g)
    ensures CanComeFree(s)
  {
    hide Inv, Doomed, IsPath;
    var trace, steps := HelpingPath(s);
  }

  // ---------- A doomed request holds the lock for ever ----------

  lemma DoomStays(s: State, step: Step, g: GUID)
    requires Inv(s) && Enabled(s, step) && Doomed(s, g) && !s.lock.Free?
    ensures Doomed(Next(s, step), g) && !Next(s, step).lock.Free?
  {
    hide Servable, Dispatches, ArrivalReply, ConnsOk, TableOk, JustifiedOk, FifoOk, LifeOk, Apply, FirstAt, ServableIn;
    if step.Deliver? && s.lock.Granting? {
      TakenOut(s, s.lock.index);
    }
  }

  lemma {:induction false} DoomedForever(trace: seq<State>, steps: seq<Step>, i: nat, g: GUID)
    requires IsPath(trace, steps) && Inv(trace[0]) && Doomed(trace[0], g) && !trace[0].lock.Free? && i < |trace|
    ensures Inv(trace[i]) && Doomed(trace[i], g) && !trace[i].lock.Free?
    decreases i
  {
    hide Inv, Doomed, Next, Enabled;
    if i > 0 {
      DoomedForever(trace, steps, i - 1, g);
      DoomStays(trace[i - 1], steps[i - 1], g);
      InvStep(trace[i - 1], steps[i - 1]);
    }
  }

  lemma NobodyIsDoomedWhileFree(s: State)
    requires Inv(s) && s.lock.Free?
    ensures forall g :: !Doomed(s, g)
  {
    hide Servable, ConnsOk, QueueOk, TableOk, JustifiedOk, FifoOk, LifeOk;
  }

  /** In every state of every run: the lock is free or can come free again if and
      only if no queued request is doomed. */
  lemma LockComesFreeIff(trace: seq<State>, steps: seq<Step>, i: nat)
    requires IsRun(trace, steps) && i < |trace|
    ensures CanComeFree(trace[i]) <==> forall g :: !Doomed(trace[i], g)
  {
    hide IsRun, Inv, Doomed;
    var s := trace[i];
    InvAlways(trace, steps, i);
    if g :| Doomed(s, g) {
      if s.lock.Free? {
        NobodyIsDoomedWhileFree(s);
      }
      if CanComeFree(s) {
        var t: seq<State>, u: seq<Step> :| IsPath(t, u) && t[0] == s && t[|u|].lock.Free?;
        DoomedForever(t, u, |u|, g);
      }
    } else {
      ComesFree(s);
    }
  }

  // ---------- The step that takes the lock away ----------

  /** The step dooms a queued request whose channel is full: reminding its client
      fails while a worker could serve it, or a worker's message makes it
      servable after its waiter gave up. */
  ghost predicate Dooms(s: State, step: Step, g: GUID) {
    g in s.queue && g in s.conns && s.conns[g].channel != [] &&
    ((step == SendFail(g) && s.conns[g].waiter.Reminding? && Servable(s.workers, s.conns[g].nets)) ||
     ((step.Connect? || step.Refresh?) && Abandoned(s.conns[g]) &&
      Servable(Apply(s.workers, Update(step.state)), s.conns[g].nets)))
  }

  lemma TableEventDooms(s: State, step: Step, g: GUID)
    requires Inv(s) && Enabled(s, step) && EventsOf(s, step) != [] && !Doomed(s, g)
    ensures Doomed(Next(s, step), g) <==> Dooms(s, step, g)
  {
    hide Servable, Dispatches, ArrivalReply, ConnsOk, QueueOk, JustifiedOk, FifoOk, LifeOk, Apply, FirstAt;
    LogStep(s, step);
    if g in s.conns && !step.Connect? && !step.Refresh? {
      OnlyUpdatesHelp(s.workers, EventsOf(s, step)[0], s.conns[g].nets);
    }
  }

  lemma DeliveryDoomsNobody(s: State, g: GUID)
    requires Inv(s) && Enabled(s, Deliver) && Target(s.lock) == Some(g)
    ensures !Doomed(Next(s, Deliver), g)
  {
    hide Servable, Dispatches, ArrivalReply, ConnsOk, TableOk, JustifiedOk, FifoOk, LifeOk, FirstAt;
    if s.lock.Granting? {
      TakenOut(s, s.lock.index);
    }
  }

  lemma RelayedIsNotQueued(c: Conn, queued: bool, p: Pending)
    requires ConnOk(c, queued, p)
    ensures c.waiter.Relaying? && c.waiter.reply.Valid? ==> !queued
    ensures c.caller.Calling? ==> !queued && c.channel == []
  {
  }

  lemma ConnStepDooms(s: State, step: Step, g: GUID)
    requires Inv(s) && Enabled(s, step) && !step.Deliver? && Subject(s, step) == Some(g) && !Doomed(s, g)
    ensures Doomed(Next(s, step), g) <==> Dooms(s, step, g)
  {
    hide Servable, Dispatches, ArrivalReply, ConnOk, TableOk, JustifiedOk, FifoOk, LifeOk, FirstAt, ServableIn, Apply;
    if g in s.conns {
      assert ConnOk(s.conns[g], g in s.queue, PendingFor(s.lock, g));
      RelayedIsNotQueued(s.conns[g], g in s.queue, PendingFor(s.lock, g));
    }
    if step.Cancel? && g in s.queue {
      TakenOut(s, IndexOf(s.queue, g));
    }
  }

  /** A request becomes doomed with a step that dooms it and in no other way. */
  lemma DoomsStep(s: State, step: Step, g: GUID)
    requires Inv(s) && Enabled(s, step) && !Doomed(s, g)
    ensures Doomed(Next(s, step), g) <==> Dooms(s, step, g)
  {
    hide Enabled, Next, ConnsOk, QueueOk, LockOk, TableOk, JustifiedOk, FifoOk, LifeOk, Servable, Apply;
    LogStep(s, step);
    if EventsOf(s, step) != [] {
      TableEventDooms(s, step, g);
    } else if Subject(s, step) != Some(g) {
      OthersKeep(s, step, g);
    } else if step.Deliver? {
      DeliveryDoomsNobody(s, g);
    } else {
      ConnStepDooms(s, step, g);
    }
  }

  /** Over whole runs: the scheduler never locks up, the lock always being free or
      able to come free, if and only if no step dooms a request. */
  lemma {:induction false} NeverLocksUpIff(trace: seq<State>, steps: seq<Step>, i: nat)
    requires IsRun(trace, steps) && i < |trace|
    ensures (forall k :: 0 <= k <= i ==> CanComeFree(trace[k])) <==>
            (forall k, g :: 0 <= k < i ==> !Dooms(trace[k], steps[k], g))
    decreases i
  {
    hide Next, Enabled, Inv, Doomed, Dooms, CanComeFree;
    LockComesFreeIff(trace, steps, i);
    if i == 0 {
      NobodyDoomedAtFirst();
    } else {
      var n := i - 1;
      NeverLocksUpIff(trace, steps, n);
      LockComesFreeIff(trace, steps, n);
      if CanComeFree(trace[n]) {
        InvAlways(trace, steps, n);
        forall g
          ensures Doomed(trace[i], g) <==> Dooms(trace[n], steps[n], g)
        {
          DoomsStep(trace[n], steps[n], g);
        }
      }
      assert (forall k, g :: 0 <= k < i ==> !Dooms(trace[k], steps[k], g)) <==>
             (forall k, g :: 0 <= k < n ==> !Dooms(trace[k], steps[k], g)) &&
             (forall g :: !Dooms(trace[n], steps[n], g));
      assert (forall k :: 0 <= k <= i ==> CanComeFree(trace[k])) <==>
             (forall k :: 0 <= k <= n ==> CanComeFree(trace[k])) && CanComeFree(trace[i]);
    }
  }

  lemma NobodyDoomedAtFirst()
    ensures forall g :: !Doomed(INITIAL, g)
  {
  }

  /** As long as no send on a queued client's connection has failed, the lock can
      always come free. */
  lemma LockComesFreeWithoutFailures(trace: seq<State>, steps: seq<Step>, i: nat)
    requires IsRun(trace, steps) && i < |trace|
    requires forall g :: g in trace[i].queue && g in trace[i].conns ==> !trace[i].conns[g].broken
    ensures CanComeFree(trace[i])
  {
    hide IsRun, Inv, CanComeFree;
    InvAlways(trace, steps, i);
    forall g
      ensures !Doomed(trace[i], g)
    {
      if g in trace[i].queue && g in trace[i].conns {
        ConnAlways(trace, steps, i, g);
      }
    }
    ComesFree(trace[i]);
  }

  // ---------- How long the lock is held ----------

  /** A step of the lock holder itself. */
  predicate HolderStep(step: Step) {
    step.Deliver? || step.Pick? || step.Release?
  }

  /** The most steps the lock holder has still to take. */
  function Work(s: State): nat {
    match s.lock
    case Free => 0
    case Offering(_, _) => 1
    case Dispatching => 2 * |s.queue| + 1
    case Granting(_, _, _) => 2 * |s.queue|
  }

  lemma WorkStep(s: State, step: Step)
    requires Inv(s) && Enabled(s, step) && !s.lock.Free?
    ensures if HolderStep(step) then Work(Next(s, step)) < Work(s) else Work(Next(s, step)) == Work(s)
  {
    hide Servable, Dispatches, ArrivalReply, FirstAt, ServableIn, Quiet, Apply, Admissible;
    hide ConnsOk, QueueOk, TableOk, JustifiedOk, FifoOk, LifeOk;
    hide Received, SentOk, SendFailed, Written, ReadBy, IndexOf;
  }

  /** How many of the steps i to j the lock holder took. */
  function HolderSteps(steps: seq<Step>, i: nat, j: nat): nat
    requires i <= j <= |steps|
  {
    if i == j then 0 else HolderSteps(steps, i, j - 1) + if HolderStep(steps[j - 1]) then 1 else 0
  }

  /** In every interleaving: as long as the lock is held, its holder takes at most
      twice as many steps as requests were queued, and one more; how many steps
      others take in between does not matter. */
  lemma {:induction false} HolderStepsAreBounded(trace: seq<State>, steps: seq<Step>, i: nat, j: nat)
    requires IsRun(trace, steps) && i <= j < |trace|
    requires forall k :: i <= k < j ==> !trace[k].lock.Free?
    ensures HolderSteps(steps, i, j) + Work(trace[j]) <= Work(trace[i]) <= 2 * |trace[i].queue| + 1
    decreases j
  {
    hide Inv, Enabled, Next, Work;
    if i < j {
      HolderStepsAreBounded(trace, steps, i, j - 1);
      InvAlways(trace, steps, j - 1);
      WorkStep(trace[j - 1], steps[j - 1]);
    }
    assert Work(trace[i]) <= 2 * |trace[i].queue| + 1 by { WorkBound(trace[i]); }
  }

  lemma WorkBound(s: State)
    ensures Work(s) <= 2 * |s.queue| + 1
  {
  }
}

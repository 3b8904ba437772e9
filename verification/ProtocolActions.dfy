/**
 What each actor can do in every state that occurs, step by step, and what comes
 of it.
 */
module ProtocolActions {
  import opened Wrappers
  import opened Net
  import opened Workers
  import opened WorkerTable
  import opened Queues
  import opened Scheduler
  import opened Client
  import opened Protocol
  import opened ProtocolInvariant
  import opened ProtocolSafety
  import opened ProtocolTheorems
  import opened ProtocolProgress

  /** The steps may be taken one after the other from s, and end in s'. */
  ghost predicate Leads(s: State, steps: seq<Step>, s': State) {
    exists trace: seq<State> :: IsPath(trace, steps) && trace[0] == s && trace[|steps|] == s'
  }

  lemma LeadsNowhere(s: State)
    ensures Leads(s, [], s)
  {
    assert IsPath([s], []);
  }

  lemma LeadsOn(s: State, steps: seq<Step>, m: State, step: Step)
    requires Leads(s, steps, m) && Linked(m) && Enabled(m, step)
    ensures Leads(s, steps + [step], Next(m, step))
  {
    hide Linked, Enabled, Next;
    var trace: seq<State> :| IsPath(trace, steps) && trace[0] == s && trace[|steps|] == m;
    var trace', steps' := trace + [Next(m, step)], steps + [step];
    assert IsPath(trace', steps') by {
      assert forall i :: 0 <= i < |steps| ==> trace'[i] == trace[i] && steps'[i] == steps[i];
    }
  }

  lemma LeadsByOne(s: State, step: Step)
    requires Linked(s) && Enabled(s, step)
    ensures Leads(s, [step], Next(s, step))
  {
    hide Linked, Enabled, Next, Leads;
    LeadsNowhere(s);
    LeadsOn(s, [], s, step);
    assert [] + [step] == [step];
  }

  lemma LeadsByTwo(s: State, first: Step, m: State, second: Step)
    requires Linked(s) && Enabled(s, first) && m == Next(s, first) && Linked(m) && Enabled(m, second)
    ensures Leads(s, [first, second], Next(m, second))
  {
    hide Linked, Enabled, Next, Leads;
    LeadsByOne(s, first);
    LeadsOn(s, [first], m, second);
    assert [first] + [second] == [first, second];
  }

  lemma OccursBase(s: State)
    requires Occurs(s)
    ensures Base(s)
  {
    hide Occurs, ConnsOk, QueueOk, LockOk, TableOk, JustifiedOk, FifoOk, LifeOk;
    OccursInv(s);
  }

  // ---------- Clients ----------

  /** A new request can always arrive.  It has all its networks, and nothing was
      sent to it. */
  lemma RequestsCanArrive(s: State, g: GUID, nets: seq<IPNet>) returns (s': State)
    requires Occurs(s) && g !in s.conns
    ensures Leads(s, [Arrive(g, nets)], s') && g in s'.conns
    ensures s'.conns[g].nets == nets && s'.conns[g].caller.Calling? && s'.conns[g].waiter.Looping?
    ensures s'.conns[g].sent == [] && s'.conns[g].wire == [] && s'.conns[g].client.Reading?
    ensures s'.queue == s.queue && s'.lock == s.lock && s'.workers == s.workers
  {
    hide Leads, Occurs, ConnsOk, QueueOk, Servable, Apply, Dispatches, ArrivalReply, FirstAt, Quiet;
    OccursBase(s);
    LeadsByOne(s, Arrive(g, nets));
    s' := Next(s, Arrive(g, nets));
  }

  /** The answer that a client on these networks may get on arrival. */
  ghost predicate MayAnswer(workers: Table, nets: seq<IPNet>, reply: Reply) {
    match reply
    case NoWorkers => workers == map[]
    case Queued =>
      workers != map[] &&
      forall id :: id in workers ==> !(HasSpace(workers[id]) && Net.Reachable(nets, workers[id].addrs))
    case Valid(_, _, _, _) =>
      exists o, sorted ::
        IsOrder(workers, o) && IsSorting(nets, sorted) && SearchInOrder(workers, sorted, o) == Some(reply)
  }

  lemma MayAnswerIsArrivalReply(workers: Table, nets: seq<IPNet>, reply: Reply)
    requires Stored(workers)
    ensures MayAnswer(workers, nets, reply) <==> ArrivalReply(workers, nets, reply)
  {
    hide Dispatches, HasSpace, Net.Reachable, Servable, IsSorting, IsOrder, SearchInOrder;
    ServableWhenStored(workers, nets);
    DispatchesIffSearched(workers, nets, reply);
    if Dispatches(workers, nets, reply) {
      var id := DispatchFacts(workers, nets, reply);
      assert workers != map[];
    }
  }

  /** Whenever the lock is free, a request that was not answered yet can get each
      of these answers and no other; it joins the end of the queue exactly if it is
      told Queued, and the lock is free again. */
  lemma RequestsCanBeAnswered(s: State, g: GUID, reply: Reply) returns (s': State)
    requires Occurs(s) && g in s.conns && s.conns[g].caller.Calling? && s.lock.Free?
    ensures (exists t :: Leads(s, [Schedule(g, reply), Deliver], t)) ==> MayAnswer(s.workers, s.conns[g].nets, reply)
    ensures MayAnswer(s.workers, s.conns[g].nets, reply) ==>
              Leads(s, [Schedule(g, reply), Deliver], s') && g in s'.conns &&
              Replies(s'.conns[g]) == [reply] && s'.conns[g].channel == [reply] &&
              s'.queue == (if reply.Queued? then s.queue + [g] else s.queue) &&
              s'.workers == s.workers && s'.lock.Free?
  {
    hide Leads, Occurs, ArrivalReply, MayAnswer, ConnsOk, QueueOk, LockOk, JustifiedOk, FifoOk, LifeOk;
    OccursInv(s);
    MayAnswerIsArrivalReply(s.workers, s.conns[g].nets, reply);
    s' := s;
    if ArrivalReply(s.workers, s.conns[g].nets, reply) {
      var m := Next(s, Schedule(g, reply));
      FreshChannel(s, g);
      LinkedStep(s, Schedule(g, reply));
      LeadsByTwo(s, Schedule(g, reply), m, Deliver);
      s' := Next(m, Deliver);
    } else if t :| Leads(s, [Schedule(g, reply), Deliver], t) {
      FirstIsEnabled(s, [Schedule(g, reply), Deliver], t);
    }
  }

  lemma FirstIsEnabled(s: State, steps: seq<Step>, s': State)
    requires Leads(s, steps, s') && |steps| > 0
    ensures Linked(s) && Enabled(s, steps[0])
  {
    hide Linked, Enabled, Next;
  }

  lemma FreshChannel(s: State, g: GUID)
    requires Base(s) && g in s.conns && s.conns[g].caller.Calling?
    ensures s.conns[g].sent == [] && s.conns[g].channel == []
  {
    assert ConnOk(s.conns[g], g in s.queue, PendingFor(s.lock, g));
  }

  /** A client that still waits can read the next reply on the wire at any time,
      before its deadline or after it. */
  lemma ClientsCanRead(s: State, g: GUID, late: bool) returns (s': State)
    requires Occurs(s) && g in s.conns && s.conns[g].client.Reading? && s.conns[g].read < |s.conns[g].wire|
    ensures Leads(s, [ClientRead(g, late)], s') && g in s'.conns && s'.conns[g].read == s.conns[g].read + 1
    ensures s'.conns[g].client == Reading <==> s.conns[g].wire[s.conns[g].read] == Queued && !late
  {
    hide Leads, Occurs, ConnsOk, QueueOk, Servable, Apply, Dispatches, ArrivalReply, FirstAt, Quiet;
    OccursBase(s);
    LeadsByOne(s, ClientRead(g, late));
    s' := Next(s, ClientRead(g, late));
  }

  // ---------- Waiters ----------

  function Send(g: GUID, ok: bool): Step {
    if ok then SendOk(g) else SendFail(g)
  }

  /** A waiter in its loop can always take the reply in its channel.  If the send
      succeeds the reply is on the wire, if not the connection is broken; either
      way a valid reply ends the loop and no other does. */
  lemma WaitersCanRelay(s: State, g: GUID, ok: bool) returns (s': State)
    requires Occurs(s) && g in s.conns && s.conns[g].waiter.Looping? && s.conns[g].channel != []
    ensures Leads(s, [Receive(g), Send(g, ok)], s') && g in s'.conns && s'.conns[g].channel == s.conns[g].channel[1..]
    ensures var c, c', r := s.conns[g], s'.conns[g], s.conns[g].channel[0];
            c'.wire == (if ok then c.wire + [r] else c.wire) && (c'.broken <==> c.broken || !ok) &&
            c'.waiter == if r.Valid? then Left else Looping
  {
    hide Leads, Occurs, ConnsOk, QueueOk, Servable, Apply, Dispatches, ArrivalReply, FirstAt, Quiet;
    OccursBase(s);
    var m := Next(s, Receive(g));
    LinkedStep(s, Receive(g));
    LeadsByTwo(s, Receive(g), m, Send(g, ok));
    s' := Next(m, Send(g, ok));
  }

  /** It can always time out, and then remind the client or fail to; only the
      failure makes it want to cancel. */
  lemma WaitersCanRemind(s: State, g: GUID, ok: bool) returns (s': State)
    requires Occurs(s) && g in s.conns && s.conns[g].waiter.Looping?
    ensures Leads(s, [Timeout(g), Send(g, ok)], s') && g in s'.conns && s'.lock == s.lock && s'.queue == s.queue
    ensures var c, c' := s.conns[g], s'.conns[g];
            c'.wire == (if ok then c.wire + [Queued] else c.wire) && (c'.broken <==> c.broken || !ok) &&
            c'.waiter == (if ok then Looping else Cancelling) && c'.channel == c.channel
  {
    hide Leads, Occurs, ConnsOk, QueueOk, Servable, Apply, Dispatches, ArrivalReply, FirstAt, Quiet;
    OccursBase(s);
    var m := Next(s, Timeout(g));
    LinkedStep(s, Timeout(g));
    LeadsByTwo(s, Timeout(g), m, Send(g, ok));
    s' := Next(m, Send(g, ok));
  }

  // ---------- Cancelling ----------

  predicate WantsToCancel(s: State, g: GUID) {
    g in s.conns && s.conns[g].waiter.Cancelling?
  }

  /** The waiter has left, and the request is not in the queue. */
  predicate Gone(s: State, g: GUID) {
    g in s.conns && s.conns[g].waiter.Left? && g !in s.queue
  }

  /** Some continuation of s gets the waiter out and the request off the queue. */
  ghost predicate CanLeave(s: State, g: GUID) {
    exists steps: seq<Step>, s': State :: Leads(s, steps, s') && Gone(s', g)
  }

  lemma CancelStep(s: State, g: GUID)
    requires Base(s) && s.lock.Free? && WantsToCancel(s, g)
    ensures Enabled(s, Cancel(g))
    ensures var s' := Next(s, Cancel(g));
            Gone(s', g) && (forall h :: h in s'.queue <==> h in s.queue && h != g) &&
            (s'.conns[g].cancelled <==> s.conns[g].cancelled || g in s.queue)
  {
    hide ConnsOk;
    if g in s.queue {
      TakenOut(s, IndexOf(s.queue, g));
    }
  }

  /** While the lock is free a waiter that wants to cancel can.  A queued request is
      cancelled by it, and no other request leaves the queue. */
  lemma QueuedCanBeCancelled(s: State, g: GUID) returns (s': State)
    requires Occurs(s) && s.lock.Free? && WantsToCancel(s, g) && g in s.queue
    ensures Leads(s, [Cancel(g)], s') && Gone(s', g) && s'.conns[g].cancelled
    ensures forall h :: h in s'.queue <==> h in s.queue && h != g
  {
    hide Leads, Occurs, Enabled, Next, ConnsOk, QueueOk;
    OccursBase(s);
    CancelStep(s, g);
    LeadsByOne(s, Cancel(g));
    s' := Next(s, Cancel(g));
  }

  /** Only cancelling ends the wish to cancel, and that takes a free lock. */
  lemma WishStays(s: State, step: Step, g: GUID)
    requires Linked(s) && Enabled(s, step) && WantsToCancel(s, g)
    ensures WantsToCancel(Next(s, step), g) || (step == Cancel(g) && s.lock.Free?)
  {
    hide Servable, Dispatches, ArrivalReply, FirstAt, ServableIn, Quiet, Apply, Admissible, Without, IndexOf;
  }

  lemma {:induction false} WishStaysWhileHelped(trace: seq<State>, steps: seq<Step>, i: nat, g: GUID)
    requires IsHelpingPath(trace, steps) && Inv(trace[0]) && WantsToCancel(trace[0], g) && i < |trace|
    ensures Inv(trace[i]) && WantsToCancel(trace[i], g)
    decreases i
  {
    hide Inv, Next, Enabled;
    if i > 0 {
      WishStaysWhileHelped(trace, steps, i - 1, g);
      InvStep(trace[i - 1], steps[i - 1]);
      WishStays(trace[i - 1], steps[i - 1], g);
    }
  }

  lemma {:induction false} WishStaysWhileDoomed(trace: seq<State>, steps: seq<Step>, i: nat, g: GUID, h: GUID)
    requires IsPath(trace, steps) && Inv(trace[0]) && Doomed(trace[0], h) && !trace[0].lock.Free?
    requires WantsToCancel(trace[0], g) && i < |trace|
    ensures WantsToCancel(trace[i], g)
    decreases i
  {
    hide Inv, Next, Enabled, Doomed;
    if i > 0 {
      WishStaysWhileDoomed(trace, steps, i - 1, g, h);
      DoomedForever(trace, steps, i - 1, h);
      WishStays(trace[i - 1], steps[i - 1], g);
    }
  }

  lemma WaitersLeave(s: State, g: GUID)
    requires Inv(s) && WantsToCancel(s, g) && forall h :: !Doomed(s, h)
    ensures CanLeave(s, g)
  {
    hide Doomed, Enabled, Next, ConnsOk, QueueOk, LockOk, TableOk, JustifiedOk, FifoOk, LifeOk;
    var trace, steps := HelpingPath(s);
    var end := trace[|steps|];
    assert Leads(s, steps, end);
    WishStaysWhileHelped(trace, steps, |steps|, g);
    CancelStep(end, g);
    LeadsOn(s, steps, end, Cancel(g));
  }

  /** A waiter whose reminder failed can take its request off the queue and leave
      if and only if no queued request is doomed. */
  lemma CancelIsPossibleIff(s: State, g: GUID)
    requires Occurs(s) && WantsToCancel(s, g)
    ensures CanLeave(s, g) <==> forall h :: !Doomed(s, h)
  {
    hide Inv, Doomed, Occurs;
    OccursInv(s);
    if h :| Doomed(s, h) {
      if s.lock.Free? {
        NobodyIsDoomedWhileFree(s);
      }
      forall steps: seq<Step>, s': State | Leads(s, steps, s')
        ensures !Gone(s', g)
      {
        var trace: seq<State> :| IsPath(trace, steps) && trace[0] == s && trace[|steps|] == s';
        WishStaysWhileDoomed(trace, steps, |steps|, g, h);
      }
    } else {
      WaitersLeave(s, g);
    }
  }

  // ---------- The dispatch loop ----------

  /** While the dispatch loop holds the lock it can let go exactly if no queued
      request can be served. */
  lemma DispatchCanEnd(s: State) returns (s': State)
    requires Occurs(s) && s.lock.Dispatching?
    ensures forall g :: g in s.queue ==> g in s.conns
    ensures (exists t :: Leads(s, [Release], t)) ==> forall g :: g in s.queue ==> !Servable(s.workers, s.conns[g].nets)
    ensures (forall g :: g in s.queue ==> !Servable(s.workers, s.conns[g].nets)) ==>
              Leads(s, [Release], s') && s' == s.(lock := Free)
  {
    hide Leads, Occurs, ConnsOk, QueueOk, Servable;
    OccursBase(s);
    s' := s;
    if Quiet(s) {
      LeadsByOne(s, Release);
      s' := Next(s, Release);
    } else if t :| Leads(s, [Release], t) {
      FirstIsEnabled(s, [Release], t);
    }
  }

  /** Otherwise it can pick the first request that can be served, with any reply the
      table allows for it; the write completes as soon as that request's channel
      has room. */
  lemma DispatchCanServe(s: State, i: nat, reply: Reply) returns (m: State, s': State)
    requires Occurs(s) && s.lock.Dispatching? && i < |s.queue| && s.queue[i] in s.conns
    requires forall j :: 0 <= j < i && s.queue[j] in s.conns ==> !Servable(s.workers, s.conns[s.queue[j]].nets)
    requires Dispatches(s.workers, s.conns[s.queue[i]].nets, reply)
    ensures Leads(s, [Pick(i, reply)], m) && m == s.(lock := Granting(s.queue[i], i, reply))
    ensures var g := s.queue[i];
            s.conns[g].channel == [] ==>
              Leads(s, [Pick(i, reply), Deliver], s') && s'.lock.Dispatching? && s'.workers == s.workers &&
              s'.queue == s.queue[..i] + s.queue[i + 1..] && g in s'.conns &&
              s'.conns[g].channel == [reply] && Replies(s'.conns[g]) == Replies(s.conns[g]) + [reply]
  {
    hide Leads, Occurs, ConnsOk, QueueOk, Dispatches, Servable, ArrivalReply, Apply;
    OccursBase(s);
    var id := DispatchFacts(s.workers, s.conns[s.queue[i]].nets, reply);
    m := Next(s, Pick(i, reply));
    LeadsByOne(s, Pick(i, reply));
    LinkedStep(s, Pick(i, reply));
    s' := m;
    if s.conns[s.queue[i]].channel == [] {
      LeadsByTwo(s, Pick(i, reply), m, Deliver);
      s' := Next(m, Deliver);
    }
  }

  // ---------- Workers ----------

  /** A message of a worker connection with addresses sorted and a speed that is
      not negative. */
  predicate Sound(state: WorkerState) {
    Sorted(state.addrs) && state.speed >= 0.0
  }

  /** Whenever the lock is free, any worker can connect or report on its live
      connection: the entry is what it reports, save that the known speed stays,
      and the dispatch loop starts. */
  lemma WorkersCanReport(s: State, h: nat, state: WorkerState) returns (step: Step, s': State)
    requires Occurs(s) && s.lock.Free? && Sound(state) && (h in s.handlers ==> s.handlers[h].live)
    ensures step == if h in s.handlers then Refresh(h, state) else Connect(h, state)
    ensures Leads(s, [step], s') && s'.lock.Dispatching? && s'.queue == s.queue && s'.conns == s.conns
    ensures var speed := if state.id in s.workers then s.workers[state.id].speed else state.speed;
            s'.workers == s.workers[state.id := state.(speed := speed)]
    ensures h in s'.handlers && s'.handlers[h].live
    ensures s'.handlers[h].first == if h in s.handlers then s.handlers[h].first else state.id
  {
    hide Leads, Occurs, ConnsOk, QueueOk;
    OccursBase(s);
    step := if h in s.handlers then Refresh(h, state) else Connect(h, state);
    LeadsByOne(s, step);
    s' := Next(s, step);
  }

  /** Whenever the lock is free, a live connection can drop; the worker it reported
      first is gone and no other. */
  lemma WorkersCanDrop(s: State, h: nat) returns (s': State)
    requires Occurs(s) && s.lock.Free? && h in s.handlers && s.handlers[h].live
    ensures Leads(s, [Drop(h)], s') && s'.lock.Free? && s'.queue == s.queue && s'.conns == s.conns
    ensures s'.workers == s.workers - {s.handlers[h].first} && !s'.handlers[h].live
  {
    hide Leads, Occurs, ConnsOk, QueueOk;
    OccursBase(s);
    LeadsByOne(s, Drop(h));
    s' := Next(s, Drop(h));
  }

  /** Whenever the lock is free, a completion can be reported for any ID; it changes
      the speed of that worker, if it is known, and nothing else. */
  lemma CompletionsCanBeReported(s: State, id: MachineID, speed: real) returns (s': State)
    requires Occurs(s) && s.lock.Free? && speed >= 0.0
    ensures Leads(s, [Complete(id, speed)], s') && s'.lock.Free? && s'.queue == s.queue && s'.conns == s.conns
    ensures s'.handlers == s.handlers
    ensures id !in s.workers ==> s'.workers == s.workers
    ensures id in s.workers ==>
              var before := s.workers[id].speed;
              s'.workers ==
              s.workers[id := s.workers[id].(speed := if before == 0.0 then speed else 0.9 * before + 0.1 * speed)]
  {
    hide Leads, Occurs, ConnsOk, QueueOk;
    OccursBase(s);
    LeadsByOne(s, Complete(id, speed));
    s' := Next(s, Complete(id, speed));
  }
}

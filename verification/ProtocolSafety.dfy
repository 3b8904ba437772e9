/**
 The invariant of the protocol: the lock's promises, the reasons behind every
 reply, first-in-first-out order and the lifetime of workers.
 */
module ProtocolSafety {
  import opened Wrappers
  import opened Net
  import opened Workers
  import opened WorkerTable
  import opened Queues
  import opened Scheduler
  import opened Protocol
  import opened ProtocolInvariant

  // ---------- What the lock promises ----------

  /** A free lock means a quiet queue.  A held lock remembers why the pending
      reply may be given. */
  ghost predicate LockOk(s: State)
    requires Linked(s)
  {
    match s.lock
    case Free => Quiet(s)
    case Dispatching => true
    case Offering(g, reply) => Quiet(s) && ArrivalReply(s.workers, s.conns[g].nets, reply)
    case Granting(g, i, reply) => FirstAt(s.queue, ServableIn(s), i) && Dispatches(s.workers, s.conns[g].nets, reply)
  }

  /** The table is what its history makes of it, and holds stored workers. */
  ghost predicate TableOk(s: State) {
    s.workers == Replay(s.log) && Stored(s.workers)
  }

  /** What a step means for the worker table. */
  function EventsOf(s: State, step: Step): seq<WorkerEvent> {
    match step
    case Connect(_, state) => [Update(state)]
    case Refresh(_, state) => [Update(state)]
    case Drop(h) => if h in s.handlers then [Remove(s.handlers[h].first)] else []
    case Complete(id, speed) => [Report(id, speed)]
    case _ => []
  }

  lemma LogStep(s: State, step: Step)
    requires Linked(s) && Enabled(s, step)
    ensures var events, s' := EventsOf(s, step), Next(s, step);
            s'.log == s.log + events && |events| <= 1 &&
            (events == [] ==> s'.workers == s.workers) &&
            (events != [] ==> s'.workers == Apply(s.workers, events[0]) && Admissible(events[0]))
  {
    hide Servable, Dispatches, ArrivalReply, FirstAt, ServableIn, Quiet, Apply;
    hide Received, SentOk, SendFailed, Written, ReadBy, Without, IndexOf;
  }

  lemma TableStep(s: State, step: Step)
    requires Linked(s) && TableOk(s) && Enabled(s, step)
    ensures TableOk(Next(s, step))
  {
    hide Next, Enabled, EventsOf, Stored, Apply, Admissible;
    var s', events := Next(s, step), EventsOf(s, step);
    LogStep(s, step);
    if events == [] {
      assert s'.log == s.log;
    } else {
      assert s'.log[..|s.log|] == s.log && s'.log[|s.log|] == events[0];
      ApplyKeepsStored(s.workers, events[0]);
    }
  }

  lemma QuietFrame(s: State, s': State)
    requires Linked(s) && Linked(s') && s'.workers == s.workers
    requires forall g :: g in s.queue && g in s'.conns ==> s'.conns[g].nets == s.conns[g].nets
    ensures (forall g :: g in s'.queue ==> g in s.queue) && Quiet(s) ==> Quiet(s')
    ensures s'.queue == s.queue ==>
              forall i :: 0 <= i && FirstAt(s.queue, ServableIn(s), i) ==> FirstAt(s'.queue, ServableIn(s'), i)
  {
    hide Servable;
  }

  /** A reply given on arrival is Queued only if nobody can serve the client. */
  lemma QueuedMeansUnservable(workers: Table, nets: seq<IPNet>)
    requires ArrivalReply(workers, nets, Queued)
    ensures !Servable(workers, nets)
  {
    if Servable(workers, nets) {
      var id := DispatchFacts(workers, nets, Queued);
    }
  }

  /** Completion reports and dropped workers leave the queue quiet. */
  lemma EventKeepsQuiet(s: State, step: Step)
    requires Linked(s) && Quiet(s) && TableOk(s) && Enabled(s, step) && (step.Drop? || step.Complete?)
    requires Linked(Next(s, step))
    ensures Quiet(Next(s, step))
  {
    var e := if step.Drop? then Remove(s.handlers[step.h].first) else Report(step.id, step.speed);
    forall g | g in s.queue
      ensures !Servable(Apply(s.workers, e), s.conns[g].nets)
    {
      OnlyUpdatesHelp(s.workers, e, s.conns[g].nets);
    }
  }

  /** So does an arriving client: it is queued only if nobody can serve it. */
  lemma ScheduleKeepsQuiet(s: State, g: GUID, reply: Reply)
    requires Linked(s) && Quiet(s) && Enabled(s, Schedule(g, reply))
    requires Linked(Next(s, Schedule(g, reply)))
    ensures Quiet(Next(s, Schedule(g, reply)))
  {
    hide Servable, Dispatches, ArrivalReply;
    if reply.Queued? {
      QueuedMeansUnservable(s.workers, s.conns[g].nets);
    }
  }

  lemma LockStep(s: State, step: Step)
    requires Base(s) && LockOk(s) && TableOk(s) && Enabled(s, step)
    requires Linked(Next(s, step))
    ensures LockOk(Next(s, step))
  {
    hide Servable, Dispatches, ArrivalReply, ConnsOk, QueueOk, Apply, Stored, Admissible, FirstAt, ServableIn, Quiet;
    hide Received, SentOk, SendFailed, Written, ReadBy;
    var s' := Next(s, step);
    forall g | g in s.conns
      ensures g in s'.conns && s'.conns[g].nets == s.conns[g].nets
    {
      TicketsKeep(s, step, g);
    }
    match step {
      case Schedule(g, reply) => ScheduleKeepsQuiet(s, g, reply);
      case Drop(_) => EventKeepsQuiet(s, step);
      case Complete(_, _) => EventKeepsQuiet(s, step);
      case Connect(_, _) =>
      case Refresh(_, _) =>
      case Cancel(g) =>
        if g in s.queue {
          TakenOut(s, IndexOf(s.queue, g));
        }
        QuietFrame(s, s');
      case _ => QuietFrame(s, s');
    }
  }

  // ---------- Why each reply was given ----------

  /** Every reply is one that schedule may give with the workers known when it
      was written, also those written by the dispatch loop. */
  ghost predicate JustifiedOk(s: State) {
    forall g, i :: g in s.conns && 0 <= i < |s.conns[g].sent| ==>
      ArrivalReply(s.conns[g].sent[i].workers, s.conns[g].nets, s.conns[g].sent[i].reply)
  }

  lemma DispatchIsArrivalReply(workers: Table, nets: seq<IPNet>, reply: Reply)
    requires Dispatches(workers, nets, reply)
    ensures ArrivalReply(workers, nets, reply)
  {
    var id := DispatchFacts(workers, nets, reply);
    assert id in workers.Keys;
  }

  lemma JustifiedStep(s: State, step: Step)
    requires Base(s) && LockOk(s) && JustifiedOk(s) && Enabled(s, step)
    ensures JustifiedOk(Next(s, step))
  {
    hide Servable, Dispatches, ArrivalReply, ConnsOk, QueueOk, Apply, FirstAt, ServableIn, Quiet;
    hide Received, SentOk, SendFailed, Written, ReadBy;
    var s' := Next(s, step);
    if step.Deliver? && s.lock.Granting? {
      DispatchIsArrivalReply(s.workers, s.conns[s.lock.guid].nets, s.lock.reply);
    }
    forall g, i | g in s'.conns && 0 <= i < |s'.conns[g].sent|
      ensures ArrivalReply(s'.conns[g].sent[i].workers, s'.conns[g].nets, s'.conns[g].sent[i].reply)
    {
      if g in s.conns {
        TicketsKeep(s, step, g);
        if i < |s.conns[g].sent| {
          assert s'.conns[g].sent[i] == s.conns[g].sent[i];
        }
      }
    }
  }

  // ---------- First in, first out ----------

  /** Every address inside one of the networks b is inside one of a. */
  ghost predicate Covers(a: seq<IPNet>, b: seq<IPNet>) {
    forall y, ip: Address :: y in b && Contains(y, ip) ==> exists x :: x in a && Contains(x, ip)
  }

  lemma InclusionCovers(a: seq<IPNet>, b: seq<IPNet>)
    requires forall x :: x in b ==> x in a
    ensures Covers(a, b)
  {
  }

  /** Whoever can serve a client can serve one with wider networks. */
  lemma WiderIsServable(workers: Table, a: seq<IPNet>, b: seq<IPNet>)
    requires Covers(a, b) && Servable(workers, b)
    ensures Servable(workers, a)
  {
    var id :| id in workers && Candidate(workers[id], b);
    var y, w :| y in b && w in workers[id].addrs && Contains(y, w.ip);
    var x :| x in a && Contains(x, w.ip);
    assert Reachable(a, workers[id].addrs);
    assert Candidate(workers[id], a);
  }

  /** A valid reply was written to the request's channel. */
  predicate Served(c: Conn) {
    |c.sent| > 0 && c.sent[|c.sent| - 1].reply.Valid?
  }

  /** The request was given a worker: the reply is written or about to be. */
  predicate Given(s: State, g: GUID)
    requires g in s.conns
  {
    Served(s.conns[g]) || (Target(s.lock) == Some(g) && s.lock.reply.Valid?)
  }

  lemma GivenIsScheduled(s: State, g: GUID)
    requires Base(s) && g in s.conns && Given(s, g)
    ensures Scheduled(s, g)
  {
    assert ConnOk(s.conns[g], g in s.queue, PendingFor(s.lock, g));
  }

  /** Nobody in the queue was overtaken by a request it covers. */
  ghost predicate FifoOk(s: State)
    requires Linked(s)
  {
    forall a, b :: a in s.queue && Scheduled(s, b) && Given(s, b) && s.conns[a].ticket < s.conns[b].ticket ==>
      !Covers(s.conns[a].nets, s.conns[b].nets)
  }

  /** At the moment a request is given a worker, nobody before it in the queue
      could have been served by that worker. */
  lemma GivingIsFair(s: State, step: Step, a: GUID, b: GUID)
    requires Base(s) && LockOk(s) && Enabled(s, step) && a in s.queue
    requires (step.Schedule? && step.g == b && step.reply.Valid?) ||
             (step.Pick? && s.queue[step.index] == b && s.conns[a].ticket < s.conns[b].ticket)
    ensures !Covers(s.conns[a].nets, s.conns[b].nets)
  {
    hide Dispatches, ConnsOk, Covers, Reachable, Candidate, Apply;
    assert Servable(s.workers, s.conns[b].nets) && !Servable(s.workers, s.conns[a].nets) by {
      var i :| 0 <= i < |s.queue| && s.queue[i] == a;
      if step.Pick? {
        assert i < step.index;
        var id := DispatchFacts(s.workers, s.conns[b].nets, step.reply);
      }
    }
    if Covers(s.conns[a].nets, s.conns[b].nets) {
      WiderIsServable(s.workers, s.conns[a].nets, s.conns[b].nets);
    }
  }

  /** Who was given a worker by this step, and not before. */
  lemma NewlyGiven(s: State, step: Step, b: GUID)
    requires Base(s) && Enabled(s, step) && Linked(Next(s, step))
    requires b in Next(s, step).conns && Given(Next(s, step), b)
    ensures b in s.conns
    ensures Given(s, b) || (step.Schedule? && step.g == b && step.reply.Valid?) ||
            (step.Pick? && s.queue[step.index] == b)
  {
    hide Servable, Dispatches, ArrivalReply, ConnsOk, QueueOk, Apply, FirstAt, ServableIn, Quiet;
    hide Received, SentOk, SendFailed, Written, ReadBy;
  }

  lemma FifoStep(s: State, step: Step)
    requires Base(s) && LockOk(s) && FifoOk(s) && Enabled(s, step)
    requires Base(Next(s, step))
    ensures FifoOk(Next(s, step))
  {
    hide Servable, Dispatches, ArrivalReply, ConnsOk, Apply, FirstAt, ServableIn, Quiet, Covers, LockOk, Given, Next;
    var s' := Next(s, step);
    forall a, b | a in s'.queue && Scheduled(s', b) && Given(s', b) && s'.conns[a].ticket < s'.conns[b].ticket
      ensures !Covers(s'.conns[a].nets, s'.conns[b].nets)
    {
      NewlyGiven(s, step, b);
      TicketsKeep(s, step, b);
      QueueChange(s, step);
      if a in s.queue {
        TicketsKeep(s, step, a);
        if Given(s, b) {
          GivenIsScheduled(s, b);
        } else {
          GivingIsFair(s, step, a, b);
        }
      } else {
        assert step.Schedule? && step.g == a;
        CallingIsNotQueued(s, a);
        TicketsKeep(s, step, a);
      }
    }
  }

  // ---------- The lifetime of workers ----------

  /** The worker connection h vouches for the ID: it reported it first and has
      not dropped, or it reported it beside its own. */
  predicate Vouches(s: State, h: nat, id: MachineID) {
    h in s.handlers && ((s.handlers[h].live && s.handlers[h].first == id) || id in s.handlers[h].strays)
  }

  /** Every known worker is vouched for by some connection. */
  ghost predicate LifeOk(s: State) {
    forall id :: id in s.workers ==> exists h :: Vouches(s, h, id)
  }

  lemma LifeStep(s: State, step: Step)
    requires Linked(s) && LifeOk(s) && Enabled(s, step)
    ensures LifeOk(Next(s, step))
  {
    hide Servable, Dispatches, ArrivalReply, FirstAt, ServableIn, Quiet, Admissible;
    hide Received, SentOk, SendFailed, Written, ReadBy;
    var s' := Next(s, step);
    forall id | id in s'.workers
      ensures exists h :: Vouches(s', h, id)
    {
      if (step.Connect? || step.Refresh?) && id == step.state.id {
        assert Vouches(s', step.h, id);
      } else {
        assert id in s.workers;
        var h :| Vouches(s, h, id);
        assert Vouches(s', h, id);
      }
    }
  }

  // ---------- All together, over whole runs ----------

  ghost predicate Inv(s: State) {
    Base(s) && LockOk(s) && TableOk(s) && JustifiedOk(s) && FifoOk(s) && LifeOk(s)
  }

  lemma InvStep(s: State, step: Step)
    requires Inv(s) && Enabled(s, step)
    ensures Inv(Next(s, step))
  {
    hide QueueOk, ConnsOk, LockOk, TableOk, JustifiedOk, FifoOk, LifeOk, Next, Enabled;
    BaseStep(s, step);
    TableStep(s, step);
    LockStep(s, step);
    JustifiedStep(s, step);
    FifoStep(s, step);
    LifeStep(s, step);
  }

  /** A run: any enabled step may follow, starting from the initial state. */
  ghost predicate IsRun(trace: seq<State>, steps: seq<Step>) {
    |trace| == |steps| + 1 && trace[0] == INITIAL &&
    forall i :: 0 <= i < |steps| ==>
      Linked(trace[i]) && Enabled(trace[i], steps[i]) && trace[i + 1] == Next(trace[i], steps[i])
  }

  lemma {:induction false} InvAlways(trace: seq<State>, steps: seq<Step>, i: nat)
    requires IsRun(trace, steps) && i < |trace|
    ensures Inv(trace[i])
    decreases i
  {
    if i > 0 {
      InvAlways(trace, steps, i - 1);
      InvStep(trace[i - 1], steps[i - 1]);
    }
  }

  /** Some run ends in s. */
  ghost predicate Occurs(s: State) {
    exists trace: seq<State>, steps: seq<Step> :: IsRun(trace, steps) && trace[|steps|] == s
  }

  lemma Starts()
    ensures Occurs(INITIAL)
  {
    assert IsRun([INITIAL], []);
  }

  lemma Continues(s: State, step: Step)
    requires Occurs(s) && Linked(s) && Enabled(s, step)
    ensures Occurs(Next(s, step))
  {
    hide Linked, Enabled, Next;
    var trace: seq<State>, steps: seq<Step> :| IsRun(trace, steps) && trace[|steps|] == s;
    var trace', steps' := trace + [Next(s, step)], steps + [step];
    assert IsRun(trace', steps') && trace'[|steps'|] == Next(s, step);
  }

  lemma OccursInv(s: State)
    requires Occurs(s)
    ensures Inv(s)
  {
    hide Inv;
    var trace: seq<State>, steps: seq<Step> :| IsRun(trace, steps) && trace[|steps|] == s;
    InvAlways(trace, steps, |steps|);
  }
}

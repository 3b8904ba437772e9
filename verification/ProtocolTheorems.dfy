/**
 What holds in every state of every run of the protocol.
 */
module ProtocolTheorems {
  import opened Wrappers
  import opened Net
  import opened NetLists
  import opened Workers
  import opened WorkerTable
  import opened Queues
  import opened Scheduler
  import opened Protocol
  import opened ProtocolInvariant
  import opened ProtocolSafety

  // ---------- Where a request comes from ----------

  lemma ConnsOnlyGrow(s: State, step: Step, g: GUID)
    requires Linked(s) && Enabled(s, step) && g in s.conns
    ensures g in Next(s, step).conns
  {
    hide Servable, Dispatches, ArrivalReply, FirstAt, ServableIn, Quiet, Apply, Admissible, Without, IndexOf;
    hide Received, SentOk, SendFailed, Written, ReadBy;
  }

  lemma {:induction false} ArrivedStays(trace: seq<State>, steps: seq<Step>, i: nat, j: nat, g: GUID)
    requires IsRun(trace, steps) && i <= j < |trace| && g in trace[i].conns
    ensures g in trace[j].conns
    decreases j
  {
    hide Next, Enabled;
    if i < j {
      ArrivedStays(trace, steps, i, j - 1, g);
      ConnsOnlyGrow(trace[j - 1], steps[j - 1], g);
    }
  }

  lemma ArriveStep(s: State, step: Step, g: GUID)
    requires Linked(s) && Enabled(s, step) && g !in s.conns && g in Next(s, step).conns
    ensures step.Arrive? && step.g == g && Next(s, step).conns[g].nets == step.nets
  {
    hide Servable, Dispatches, ArrivalReply, FirstAt, ServableIn, Quiet, Apply, Admissible, Without, IndexOf;
    hide Received, SentOk, SendFailed, Written, ReadBy;
  }

  lemma ArriveIsNew(s: State, step: Step)
    requires Linked(s) && Enabled(s, step) && step.Arrive?
    ensures step.g !in s.conns && step.g in Next(s, step).conns
  {
  }

  /** Every request came with exactly one arrival, and its networks are all those
      that it came with. */
  lemma {:induction false} ArrivedOnce(trace: seq<State>, steps: seq<Step>, i: nat, g: GUID) returns (k: nat)
    requires IsRun(trace, steps) && i < |trace| && g in trace[i].conns
    ensures k < i && steps[k].Arrive? && steps[k].g == g && trace[i].conns[g].nets == steps[k].nets
    ensures forall m :: 0 <= m < i && steps[m].Arrive? && steps[m].g == g ==> m == k
    decreases i
  {
    hide Next, Enabled, QueueOk, ConnsOk;
    var s, step := trace[i - 1], steps[i - 1];
    RunStep(trace, steps, i);
    if g in s.conns {
      k := ArrivedOnce(trace, steps, i - 1, g);
      TicketsKeep(s, step, g);
      if step.Arrive? {
        ArriveIsNew(s, step);
      }
    } else {
      k := i - 1;
      ArriveStep(s, step, g);
      forall m | 0 <= m < i - 1 && steps[m].Arrive? && steps[m].g == g
        ensures false
      {
        ArriveIsNew(trace[m], steps[m]);
        ArrivedStays(trace, steps, m + 1, i - 1, g);
      }
    }
  }

  // ---------- What a client is told ----------

  /** A beginning of Queued* Valid or of Queued* NoWorkers Queued*. */
  predicate InLanguage(wire: seq<Reply>) {
    exists n :: 0 <= n <= |wire| && SplitAt(wire, n)
  }

  /** Up to n all replies are Queued; at n the answer comes, if it came. */
  predicate SplitAt(wire: seq<Reply>, n: nat)
    requires n <= |wire|
  {
    (forall i :: 0 <= i < n ==> wire[i].Queued?) &&
    (n == |wire| ||
     (wire[n].Valid? && n + 1 == |wire|) ||
     (wire[n].NoWorkers? && forall i :: n < i < |wire| ==> wire[i].Queued?))
  }

  lemma ConnAlways(trace: seq<State>, steps: seq<Step>, i: nat, g: GUID)
    requires IsRun(trace, steps) && i < |trace| && g in trace[i].conns
    ensures ConnOk(trace[i].conns[g], g in trace[i].queue, PendingFor(trace[i].lock, g))
  {
    hide IsRun, ConnOk, LockOk, TableOk, JustifiedOk, FifoOk, LifeOk, QueueOk, Linked;
    InvAlways(trace, steps, i);
  }

  lemma WireLanguage(c: Conn)
    requires WireOk(c)
    ensures InLanguage(c.wire)
  {
    if n :| 0 <= n < |c.wire| && !c.wire[n].Queued? {
      assert SplitAt(c.wire, n);
    } else {
      assert SplitAt(c.wire, |c.wire|);
    }
  }

  lemma RepliesOnTheWire(trace: seq<State>, steps: seq<Step>, i: nat, g: GUID)
    requires IsRun(trace, steps) && i < |trace| && g in trace[i].conns
    ensures InLanguage(trace[i].conns[g].wire)
  {
    hide IsRun, InLanguage, WireOk, CallerOk, ClientOk, WaiterOk, ChannelOk;
    ConnAlways(trace, steps, i, g);
    WireLanguage(trace[i].conns[g]);
  }

  /** What a step makes of the replies written to one channel. */
  ghost function SentAfter(s: State, step: Step, g: GUID): seq<Sent> {
    var before := if g in s.conns then s.conns[g].sent else [];
    if step.Deliver? && Target(s.lock) == Some(g) then before + [Sent(s.lock.reply, s.workers)] else before
  }

  /** Unless a send has failed, no reply is lost: one that the waiter took is on
      the wire or just being sent, and a waiter leaves only after sending the
      valid reply. */
  lemma RepliesAreNotLost(trace: seq<State>, steps: seq<Step>, i: nat, g: GUID, n: nat)
    requires IsRun(trace, steps) && i < |trace| && g in trace[i].conns && !trace[i].conns[g].broken
    requires var c := trace[i].conns[g]; n < |c.sent| - |c.channel|
    ensures var c := trace[i].conns[g];
            c.sent[n].reply in c.wire || (c.waiter == Relaying(c.sent[n].reply) && n == |c.sent| - |c.channel| - 1)
    ensures var c := trace[i].conns[g];
            c.waiter.Left? ==> Served(c) && |c.wire| > 0 && c.wire[|c.wire| - 1] == c.sent[|c.sent| - 1].reply
  {
    hide IsRun;
    ConnAlways(trace, steps, i, g);
  }

  /** Only the lock holder writes to reply channels. */
  lemma SentStep(s: State, step: Step, g: GUID)
    requires Linked(s) && Enabled(s, step) && g in Next(s, step).conns
    ensures Next(s, step).conns[g].sent == SentAfter(s, step, g)
  {
    hide Servable, Dispatches, ArrivalReply, FirstAt, ServableIn, Quiet, Apply, Admissible;
    hide Received, SentOk, SendFailed, Written, ReadBy, Without, IndexOf;
  }

  /** Whatever was written to a reply channel was written by the lock holder at
      an earlier step, with the workers known at that step. */
  lemma {:induction false} SentAtDelivery(trace: seq<State>, steps: seq<Step>, i: nat, g: GUID, n: nat)
    returns (k: nat)
    requires IsRun(trace, steps) && i < |trace| && g in trace[i].conns && n < |trace[i].conns[g].sent|
    ensures k < i && steps[k].Deliver? && Target(trace[k].lock) == Some(g)
    ensures trace[i].conns[g].sent[n] == Sent(trace[k].lock.reply, trace[k].workers)
    decreases i
  {
    hide Next, Enabled;
    var s := trace[i - 1];
    SentStep(s, steps[i - 1], g);
    if g in s.conns && n < |s.conns[g].sent| {
      k := SentAtDelivery(trace, steps, i - 1, g, n);
    } else {
      k := i - 1;
    }
  }

  /** A client that found a worker was told so by the last and only valid reply. */
  lemma FoundMeansServed(c: Conn, queued: bool, p: Pending)
    requires ConnOk(c, queued, p) && c.client.Found?
    ensures c.client.reply.Valid? && Served(c) && c.client.reply == c.sent[|c.sent| - 1].reply
    ensures forall n :: 0 <= n < |c.sent| - 1 ==> !c.sent[n].reply.Valid?
    ensures |c.wire| > 0 && c.wire[|c.wire| - 1] == c.client.reply
  {
  }

  lemma SentIsJustified(trace: seq<State>, steps: seq<Step>, i: nat, g: GUID, n: nat)
    requires IsRun(trace, steps) && i < |trace| && g in trace[i].conns && n < |trace[i].conns[g].sent|
    ensures var x := trace[i].conns[g].sent[n];
            Stored(trace[i].workers) && ArrivalReply(x.workers, trace[i].conns[g].nets, x.reply)
  {
    hide IsRun, Base, LockOk, FifoOk, LifeOk, ArrivalReply, Stored;
    InvAlways(trace, steps, i);
  }

  lemma StoredAlways(trace: seq<State>, steps: seq<Step>, i: nat)
    requires IsRun(trace, steps) && i < |trace|
    ensures Stored(trace[i].workers)
  {
    hide IsRun, Base, LockOk, FifoOk, LifeOk, JustifiedOk, Stored;
    InvAlways(trace, steps, i);
  }

  /** A client that finds a worker was told so by the only valid reply of its
      request, and nothing was written after it. */
  lemma ClientFoundTheValidReply(trace: seq<State>, steps: seq<Step>, i: nat, g: GUID)
    requires IsRun(trace, steps) && i < |trace| && g in trace[i].conns
    requires trace[i].conns[g].client.Found?
    ensures var c := trace[i].conns[g];
            c.client.reply.Valid? && Served(c) && c.client.reply == c.sent[|c.sent| - 1].reply &&
            (forall n :: 0 <= n < |c.sent| - 1 ==> !c.sent[n].reply.Valid?) &&
            |c.wire| > 0 && c.wire[|c.wire| - 1] == c.client.reply
  {
    hide IsRun, ConnOk;
    ConnAlways(trace, steps, i, g);
    FoundMeansServed(trace[i].conns[g], g in trace[i].queue, PendingFor(trace[i].lock, g));
  }

  /** When that reply was written, the worker was known, had room for a job and
      was a fastest one of those; its address lies in one of the networks that
      the client's request came with. */
  lemma ClientSuccess(trace: seq<State>, steps: seq<Step>, i: nat, g: GUID) returns (k: nat, arrival: nat)
    requires IsRun(trace, steps) && i < |trace| && g in trace[i].conns
    requires trace[i].conns[g].client.Found?
    ensures arrival < i && steps[arrival].Arrive? && steps[arrival].g == g
    ensures var c := trace[i].conns[g];
            c.client.reply.Valid? && k < i && steps[k].Deliver? &&
            Target(trace[k].lock) == Some(g) && trace[k].lock.reply == c.client.reply &&
            WorksFor(trace[k].workers, steps[arrival].nets, c.client.reply)
  {
    hide IsRun, WorksFor, ArrivalReply;
    var c := trace[i].conns[g];
    arrival := ArrivedOnce(trace, steps, i, g);
    ClientFoundTheValidReply(trace, steps, i, g);
    k := SentAtDelivery(trace, steps, i, g, |c.sent| - 1);
    StoredAlways(trace, steps, k);
    SentIsJustified(trace, steps, i, g, |c.sent| - 1);
    ValidRepliesWork(trace[k].workers, c.nets, c.client.reply);
  }

  /** The worker of the reply is known, has room, and no other with room that the
      networks reach is faster; the address is its least one inside the least of
      the networks that has any. */
  ghost predicate WorksFor(workers: Table, nets: seq<IPNet>, reply: Reply) {
    reply.Valid? && reply.id in workers && HasSpace(workers[reply.id]) &&
    (forall other :: other in workers && HasSpace(workers[other]) && Net.Reachable(nets, workers[other].addrs) ==>
      workers[other].speed <= workers[reply.id].speed) &&
    exists net :: IsBestMatch(nets, workers[reply.id].addrs, net, reply.address)
  }

  lemma ValidRepliesWork(workers: Table, nets: seq<IPNet>, reply: Reply)
    requires Stored(workers) && ArrivalReply(workers, nets, reply) && reply.Valid?
    ensures WorksFor(workers, nets, reply)
  {
    hide Dispatches, Contains, HasSpace, IsBestMatch;
    var id := DispatchFacts(workers, nets, reply);
    var net := DispatchedAddressIsBest(workers, nets, reply);
  }

  /** A client gives up for want of workers only if schedule found none. */
  lemma ClientGivesUpWithoutWorkers(trace: seq<State>, steps: seq<Step>, i: nat, g: GUID) returns (k: nat)
    requires IsRun(trace, steps) && i < |trace| && g in trace[i].conns
    requires trace[i].conns[g].client.NoneInCluster?
    ensures k < i && steps[k].Deliver? && trace[k].lock == Offering(g, NoWorkers) && trace[k].workers == map[]
  {
    hide IsRun, ArrivalReply;
    var c := trace[i].conns[g];
    ConnAlways(trace, steps, i, g);
    assert c.wire[c.read - 1].NoWorkers?;
    k := SentAtDelivery(trace, steps, i, g, 0);
    SentIsJustified(trace, steps, i, g, 0);
    NoWorkersMeansNone(trace[k].workers, c.nets);
    LinkedAlways(trace, steps, k);
    ConnAlways(trace, steps, k, g);
  }

  lemma NoWorkersMeansNone(workers: Table, nets: seq<IPNet>)
    requires ArrivalReply(workers, nets, NoWorkers)
    ensures workers == map[]
  {
    hide Dispatches;
    if Dispatches(workers, nets, NoWorkers) {
      var id := DispatchFacts(workers, nets, NoWorkers);
    }
  }

  /** What schedule writes: NoWorkers exactly if nobody is known; Queued exactly if
      somebody is, but nobody with room has an address in a network that the
      request came with; a fitting worker otherwise.  The request is queued
      exactly if it is told so. */
  lemma AnswerOnArrival(trace: seq<State>, steps: seq<Step>, k: nat) returns (arrival: nat)
    requires IsRun(trace, steps) && k < |steps| && steps[k].Deliver? && trace[k].lock.Offering?
    ensures var g, r, workers := trace[k].lock.guid, trace[k].lock.reply, trace[k].workers;
            arrival < k && steps[arrival].Arrive? && steps[arrival].g == g &&
            (r == NoWorkers <==> workers == map[]) &&
            (r == Queued <==>
             workers != map[] &&
             forall id :: id in workers ==>
               !(HasSpace(workers[id]) && Net.Reachable(steps[arrival].nets, workers[id].addrs))) &&
            (r.Valid? ==> WorksFor(workers, steps[arrival].nets, r))
    ensures var g, s' := trace[k].lock.guid, trace[k + 1];
            g in s'.conns && s'.conns[g].sent == [Sent(trace[k].lock.reply, trace[k].workers)] &&
            (g in s'.queue <==> trace[k].lock.reply == Queued)
  {
    hide Next, Enabled, WorksFor, ConnOk, ConnsOk, QueueOk, TableOk, JustifiedOk, FifoOk, LifeOk;
    hide Dispatches, Servable, FirstAt;
    RunStep(trace, steps, k + 1);
    InvAlways(trace, steps, k);
    StoredAlways(trace, steps, k);
    var s := trace[k];
    var g, nets := s.lock.guid, s.conns[s.lock.guid].nets;
    arrival := ArrivedOnce(trace, steps, k, g);
    AnswerMeans(s.workers, nets, s.lock.reply);
    ConnAlways(trace, steps, k, g);
    OfferedFirst(s.conns[g], g in s.queue, PendingFor(s.lock, g));
    SentAfterOffer(s);
  }

  lemma OfferedFirst(c: Conn, queued: bool, p: Pending)
    requires ConnOk(c, queued, p) && p.Offer?
    ensures c.sent == [] && (queued <==> p.reply.Queued?)
  {
  }

  lemma SentAfterOffer(s: State)
    requires Linked(s) && s.lock.Offering? && Enabled(s, Deliver)
    ensures var g, s' := s.lock.guid, Next(s, Deliver);
            g in s'.conns && s'.conns[g].sent == s.conns[g].sent + [Sent(s.lock.reply, s.workers)] &&
            s'.queue == s.queue
  {
  }

  lemma AnswerMeans(workers: Table, nets: seq<IPNet>, r: Reply)
    requires Stored(workers) && ArrivalReply(workers, nets, r)
    ensures r == NoWorkers <==> workers == map[]
    ensures r == Queued <==>
            workers != map[] &&
            forall id :: id in workers ==> !(HasSpace(workers[id]) && Net.Reachable(nets, workers[id].addrs))
    ensures r.Valid? ==> WorksFor(workers, nets, r)
  {
    hide Dispatches, WorksFor, HasSpace, Net.Reachable;
    ServableWhenStored(workers, nets);
    if Dispatches(workers, nets, r) {
      var id := DispatchFacts(workers, nets, r);
    }
    if r.Valid? {
      ValidRepliesWork(workers, nets, r);
    }
  }

  /** What the successful sends among the first i steps put on a connection. */
  function WireHistory(trace: seq<State>, steps: seq<Step>, i: nat, g: GUID): seq<Reply>
    requires i <= |steps| < |trace|
  {
    if i == 0 then [] else
      var before := WireHistory(trace, steps, i - 1, g);
      var s := trace[i - 1];
      if steps[i - 1] == SendOk(g) && g in s.conns then
        before + [if s.conns[g].waiter.Relaying? then s.conns[g].waiter.reply else Queued]
      else
        before
  }

  lemma WireStep(s: State, step: Step, g: GUID)
    requires Linked(s) && Enabled(s, step) && g in Next(s, step).conns
    ensures step == SendOk(g) ==> g in s.conns
    ensures var before := if g in s.conns then s.conns[g].wire else [];
            Next(s, step).conns[g].wire ==
            if step == SendOk(g) then before + [if s.conns[g].waiter.Relaying? then s.conns[g].waiter.reply else Queued]
            else before
  {
    hide Servable, Dispatches, ArrivalReply, FirstAt, ServableIn, Quiet, Apply, Admissible, Without, IndexOf;
  }

  /** Each successful send puts one reply on the wire: the one that was taken
      from the channel, or Queued as a reminder.  Nothing else does. */
  lemma {:induction false} WireIsItsSends(trace: seq<State>, steps: seq<Step>, i: nat, g: GUID)
    requires IsRun(trace, steps) && i < |trace|
    ensures (if g in trace[i].conns then trace[i].conns[g].wire else []) == WireHistory(trace, steps, i, g)
    decreases i
  {
    hide Next, Enabled;
    if i > 0 {
      WireIsItsSends(trace, steps, i - 1, g);
      var s, step := trace[i - 1], steps[i - 1];
      if g in trace[i].conns {
        WireStep(s, step, g);
      } else if g in s.conns {
        ConnsOnlyGrow(s, step, g);
      }
    }
  }

  /** The replies that the successful sends among the first i steps relayed from
      the channel, without the reminders. */
  function Relayed(trace: seq<State>, steps: seq<Step>, i: nat, g: GUID): seq<Reply>
    requires i <= |steps| < |trace|
  {
    if i == 0 then [] else Relayed(trace, steps, i - 1, g) + RelayedAt(trace[i - 1], steps[i - 1], g)
  }

  function RelayedAt(s: State, step: Step, g: GUID): seq<Reply> {
    if step == SendOk(g) && g in s.conns && s.conns[g].waiter.Relaying? then [s.conns[g].waiter.reply] else []
  }

  /** The replies written to a request's channel. */
  function Replies(c: Conn): seq<Reply> {
    seq(|c.sent|, i requires 0 <= i < |c.sent| => c.sent[i].reply)
  }

  /** How many replies the waiter is done with: taken, and not just being sent. */
  function Handled(c: Conn): int {
    Taken(c) - if c.waiter.Relaying? then 1 else 0
  }

  lemma HandledBounds(c: Conn, queued: bool, p: Pending)
    requires ConnOk(c, queued, p)
    ensures 0 <= Handled(c) <= |c.sent|
    ensures c.waiter.Relaying? ==> Handled(c) < |c.sent| && c.waiter.reply == Replies(c)[Handled(c)]
  {
  }

  lemma HandledChange(c: Conn)
    ensures c.waiter.Looping? && c.channel != [] ==>
              Handled(Received(c)) == Handled(c) && Received(c).broken == c.broken
    ensures c.channel == [] ==>
              forall sent :: Handled(Written(c, sent)) == Handled(c) && Written(c, sent).broken == c.broken &&
                             Written(c, sent).waiter == c.waiter
    ensures c.read < |c.wire| ==>
              forall late :: Handled(ReadBy(c, late)) == Handled(c) && ReadBy(c, late).broken == c.broken
    ensures c.waiter.Relaying? || c.waiter.Reminding? ==>
              SentOk(c).broken == c.broken && SendFailed(c).broken &&
              Handled(SentOk(c)) == Handled(c) + if c.waiter.Relaying? then 1 else 0
  {
  }

  /** The steps that move a reply. */
  predicate MovesReply(step: Step) {
    step.Deliver? || step.Receive? || step.SendOk? || step.SendFail? || step.ClientRead?
  }

  lemma HandledByMove(s: State, step: Step, g: GUID)
    requires Linked(s) && Enabled(s, step) && MovesReply(step) && Subject(s, step) == Some(g) && g in s.conns
    ensures g in Next(s, step).conns
    ensures var c, c' := s.conns[g], Next(s, step).conns[g];
            !c'.broken ==> !c.broken && Handled(c') == Handled(c) + |RelayedAt(s, step, g)|
  {
    hide Servable, Dispatches, ArrivalReply, FirstAt, ServableIn, Quiet, Apply, Admissible, Without, IndexOf;
    hide Received, SentOk, SendFailed, Written, ReadBy;
    HandledChange(s.conns[g]);
  }

  lemma HandledByOther(s: State, step: Step, g: GUID)
    requires Linked(s) && Enabled(s, step) && !MovesReply(step) && Subject(s, step) == Some(g) && g in s.conns
    ensures g in Next(s, step).conns
    ensures var c, c' := s.conns[g], Next(s, step).conns[g];
            c'.broken == c.broken && Handled(c') == Handled(c) && RelayedAt(s, step, g) == []
  {
    hide Servable, Dispatches, ArrivalReply, FirstAt, ServableIn, Quiet, Apply, Admissible, Without, IndexOf;
    hide Received, SentOk, SendFailed, Written, ReadBy;
  }

  /** Only relaying a reply settles it, unless the send fails. */
  lemma HandledStep(s: State, step: Step, g: GUID)
    requires Base(s) && Enabled(s, step) && g in Next(s, step).conns && !Next(s, step).conns[g].broken
    ensures var c' := Next(s, step).conns[g];
            if g in s.conns then
              !s.conns[g].broken && Handled(c') == Handled(s.conns[g]) + |RelayedAt(s, step, g)|
            else Handled(c') == 0
  {
    hide ConnsOk, QueueOk, Handled, Enabled, Next;
    if Subject(s, step) != Some(g) {
      OthersKeep(s, step, g);
    } else if g in s.conns && MovesReply(step) {
      HandledByMove(s, step, g);
    } else if g in s.conns {
      HandledByOther(s, step, g);
    } else {
      HandledAtFirst(s, step, g);
    }
  }

  lemma HandledAtFirst(s: State, step: Step, g: GUID)
    requires Linked(s) && Enabled(s, step) && Subject(s, step) == Some(g) && g !in s.conns
    ensures g in Next(s, step).conns && Handled(Next(s, step).conns[g]) == 0
  {
    hide Servable, Dispatches, ArrivalReply, FirstAt, ServableIn, Quiet, Apply, Admissible, Without, IndexOf;
    hide Received, SentOk, SendFailed, Written, ReadBy;
  }

  /** Another reply written to the channel leaves those before it. */
  lemma RepliesExtend(c: Conn, d: Conn, n: nat)
    requires c.sent <= d.sent && n <= |c.sent|
    ensures Replies(c)[..n] == Replies(d)[..n]
    ensures n < |c.sent| ==> Replies(d)[..n + 1] == Replies(c)[..n] + [Replies(c)[n]]
  {
  }

  /** Unless a send has failed, the replies relayed to the client are those
      written to its channel, each once and in that order, up to the one that
      is just being sent or still in the channel. */
  lemma {:induction false} RelayedInOrder(trace: seq<State>, steps: seq<Step>, i: nat, g: GUID)
    requires IsRun(trace, steps) && i < |trace| && g in trace[i].conns && !trace[i].conns[g].broken
    ensures var c := trace[i].conns[g];
            0 <= Handled(c) <= |c.sent| && Relayed(trace, steps, i, g) == Replies(c)[..Handled(c)]
    decreases i
  {
    hide Next, Enabled, ConnOk, Handled, Linked, QueueOk, ConnsOk, Replies;
    ConnAlways(trace, steps, i, g);
    HandledBounds(trace[i].conns[g], g in trace[i].queue, PendingFor(trace[i].lock, g));
    if i > 0 {
      var s, step := trace[i - 1], steps[i - 1];
      RunStep(trace, steps, i);
      HandledStep(s, step, g);
      SentStep(s, step, g);
      if g in s.conns {
        RelayedInOrder(trace, steps, i - 1, g);
        ConnAlways(trace, steps, i - 1, g);
        HandledBounds(s.conns[g], g in s.queue, PendingFor(s.lock, g));
        RepliesExtend(s.conns[g], trace[i].conns[g], Handled(s.conns[g]));
      } else {
        NothingRelayed(trace, steps, i - 1, g);
      }
    }
  }

  lemma {:induction false} NothingRelayed(trace: seq<State>, steps: seq<Step>, i: nat, g: GUID)
    requires IsRun(trace, steps) && i < |trace| && g !in trace[i].conns
    ensures Relayed(trace, steps, i, g) == []
    decreases i
  {
    hide Next, Enabled, Linked;
    if i > 0 {
      if g in trace[i - 1].conns {
        ConnsOnlyGrow(trace[i - 1], steps[i - 1], g);
      }
      NothingRelayed(trace, steps, i - 1, g);
    }
  }

  // ---------- The queue ----------

  /** Whenever the lock is free, no worker with room for a job has an address in
      any of the networks that a queued request came with. */
  lemma WorkIsConserved(trace: seq<State>, steps: seq<Step>, i: nat, g: GUID, id: MachineID) returns (arrival: nat)
    requires IsRun(trace, steps) && i < |trace| && trace[i].lock.Free?
    requires g in trace[i].queue && id in trace[i].workers
    ensures arrival < i && steps[arrival].Arrive? && steps[arrival].g == g
    ensures !(HasSpace(trace[i].workers[id]) && Net.Reachable(steps[arrival].nets, trace[i].workers[id].addrs))
  {
    InvAlways(trace, steps, i);
    arrival := ArrivedOnce(trace, steps, i, g);
    ServableWhenStored(trace[i].workers, trace[i].conns[g].nets);
  }

  /** The queued requests that some worker can serve, or those that none can, in
      queue order. */
  ghost function QueuePart(s: State, served: bool): seq<GUID> {
    Part(s.queue, ServableIn(s), served)
  }

  /** The dispatch loop holds the lock. */
  predicate InDispatch(s: State) {
    s.lock.Dispatching? || s.lock.Granting?
  }

  /** The requests that the channel writes at steps i to j went to, in order. */
  function Grants(trace: seq<State>, steps: seq<Step>, i: nat, j: nat): seq<GUID>
    requires i <= j <= |steps| < |trace|
  {
    if i == j then [] else Grants(trace, steps, i, j - 1) + GrantAt(trace[j - 1], steps[j - 1])
  }

  function GrantAt(s: State, step: Step): seq<GUID> {
    if step.Deliver? && Target(s.lock).Some? then [Target(s.lock).value] else []
  }

  lemma DispatchHoldsTheTable(s: State, step: Step)
    requires Linked(s) && InDispatch(s) && Enabled(s, step)
    ensures Next(s, step).workers == s.workers
    ensures InDispatch(Next(s, step)) || Next(s, step).lock.Free?
    ensures GrantAt(s, step) == if step.Deliver? then [s.queue[s.lock.index]] else []
    ensures Removed(s, step) == if step.Deliver? then s.lock.index else |s.queue|
  {
    hide Dispatches, ArrivalReply, FirstAt, ServableIn, Servable, Apply, Quiet, Admissible;
    hide Received, SentOk, SendFailed, Written, ReadBy, Without, IndexOf;
  }

  /** A step while the dispatch loop holds the lock: a grant takes the first
      request off the served part, nothing else changes either part. */
  lemma DispatchStep(s: State, step: Step)
    requires Inv(s) && InDispatch(s) && Enabled(s, step)
    ensures QueuePart(Next(s, step), false) == QueuePart(s, false)
    ensures GrantAt(s, step) + QueuePart(Next(s, step), true) == QueuePart(s, true)
  {
    hide Dispatches, ArrivalReply, ConnsOk, QueueOk, TableOk, JustifiedOk, FifoOk, LifeOk, Servable, Quiet;
    hide Next, Part, FirstAt, Admissible, GrantAt, Removed;
    var s' := Next(s, step);
    DispatchHoldsTheTable(s, step);
    forall g | g in s.queue
      ensures ServableIn(s')(g) == ServableIn(s)(g)
    {
      TicketsKeep(s, step, g);
    }
    QueueChange(s, step);
    if step.Deliver? {
      TakenOut(s, s.lock.index);
      TakeFirst(s.queue, ServableIn(s), s.lock.index);
    }
    PartFrame(s'.queue, ServableIn(s'), ServableIn(s), false);
    PartFrame(s'.queue, ServableIn(s'), ServableIn(s), true);
  }

  /** One pass of the dispatch loop, with any steps of other actors in between:
      the requests it has written to, followed by the servable ones still
      queued, are the servable ones at its start, in queue order; the others
      stay.  Once it lets the lock go it has served all of the former. */
  lemma {:induction false} DispatchPassPartitionsTheQueue(trace: seq<State>, steps: seq<Step>, i: nat, j: nat)
    requires IsRun(trace, steps) && i <= j < |trace| && InDispatch(trace[i])
    requires forall k :: i <= k < j ==> !trace[k].lock.Free?
    ensures trace[j].workers == trace[i].workers
    ensures QueuePart(trace[j], false) == QueuePart(trace[i], false)
    ensures Grants(trace, steps, i, j) + QueuePart(trace[j], true) == QueuePart(trace[i], true)
    ensures trace[j].lock.Free? ==>
              trace[j].queue == QueuePart(trace[i], false) && Grants(trace, steps, i, j) == QueuePart(trace[i], true)
    ensures InDispatch(trace[j]) || trace[j].lock.Free?
    decreases j
  {
    hide IsRun, Next, Enabled, QueueOk, ConnsOk, TableOk, JustifiedOk, FifoOk, LifeOk, GrantAt, QueuePart, Servable;
    InvAlways(trace, steps, j);
    if i < j {
      DispatchPassPartitionsTheQueue(trace, steps, i, j - 1);
      RunStep(trace, steps, j);
      InvAlways(trace, steps, j - 1);
      DispatchStep(trace[j - 1], steps[j - 1]);
      DispatchHoldsTheTable(trace[j - 1], steps[j - 1]);
    }
    if trace[j].lock.Free? {
      NoneQueued(trace[j]);
    }
  }

  lemma NoneQueued(s: State)
    requires Linked(s) && Quiet(s)
    ensures QueuePart(s, true) == [] && QueuePart(s, false) == s.queue
  {
    NonePasses(s.queue, ServableIn(s));
  }

  /** Every write of a pass is one valid reply that the table at its start
      allows for the request it goes to. */
  lemma GrantsAreDispatches(trace: seq<State>, steps: seq<Step>, i: nat, j: nat, k: nat)
    requires IsRun(trace, steps) && i <= k < j < |trace| && InDispatch(trace[i])
    requires forall k :: i <= k < j ==> !trace[k].lock.Free?
    requires steps[k].Deliver?
    ensures var s, s' := trace[k], trace[k + 1];
            s.lock.Granting? && s.lock.guid in s.conns && s.lock.guid in s'.conns &&
            Dispatches(trace[i].workers, s.conns[s.lock.guid].nets, s.lock.reply) &&
            Replies(s'.conns[s.lock.guid]) == Replies(s.conns[s.lock.guid]) + [s.lock.reply]
  {
    hide IsRun, Next, Enabled, ConnsOk, TableOk, JustifiedOk, FifoOk, LifeOk;
    hide Dispatches, FirstAt, ServableIn, QueuePart;
    DispatchPassPartitionsTheQueue(trace, steps, i, k);
    RunStep(trace, steps, k + 1);
    InvAlways(trace, steps, k);
    GrantIsWritten(trace[k]);
  }

  lemma GrantIsWritten(s: State)
    requires Linked(s) && Enabled(s, Deliver) && InDispatch(s)
    ensures s.lock.Granting? && s.lock.guid in Next(s, Deliver).conns
    ensures Replies(Next(s, Deliver).conns[s.lock.guid]) == Replies(s.conns[s.lock.guid]) + [s.lock.reply]
  {
  }

  /** Tickets and networks stay, and a ticket taken later is a later one. */
  predicate TicketsFrom(s: State, s': State, g: GUID) {
    s.tickets <= s'.tickets &&
    (g in s.conns ==> g in s'.conns && s'.conns[g].nets == s.conns[g].nets) &&
    (Scheduled(s, g) ==> Scheduled(s', g) && s'.conns[g].ticket == s.conns[g].ticket) &&
    (!Scheduled(s, g) && Scheduled(s', g) ==> s.tickets <= s'.conns[g].ticket)
  }

  lemma TicketsFromStep(s: State, step: Step, g: GUID)
    requires Base(s) && Enabled(s, step)
    ensures TicketsFrom(s, Next(s, step), g)
  {
    hide Next, Enabled, QueueOk, ConnsOk;
    if g in s.conns {
      TicketsKeep(s, step, g);
    } else {
      NewConnIsCalling(s, step, g);
    }
  }

  lemma {:induction false} TicketsOverRun(trace: seq<State>, steps: seq<Step>, i: nat, j: nat, g: GUID)
    requires IsRun(trace, steps) && i <= j < |trace|
    ensures TicketsFrom(trace[i], trace[j], g)
    decreases j
  {
    hide IsRun, Next, Enabled, QueueOk, ConnsOk;
    if i < j {
      TicketsOverRun(trace, steps, i, j - 1, g);
      RunStep(trace, steps, j);
      TicketsFromStep(trace[j - 1], steps[j - 1], g);
    }
  }

  lemma RunStep(trace: seq<State>, steps: seq<Step>, j: nat)
    requires IsRun(trace, steps) && 0 < j < |trace|
    ensures |steps| == |trace| - 1
    ensures Base(trace[j - 1]) && Enabled(trace[j - 1], steps[j - 1]) && trace[j] == Next(trace[j - 1], steps[j - 1])
  {
    hide Next, Enabled, QueueOk, ConnsOk, LockOk, TableOk, JustifiedOk, FifoOk, LifeOk;
    InvAlways(trace, steps, j - 1);
  }

  /** A request that was queued before another entered schedule, and whose
      networks cover the other's, is never overtaken: as long as it waits, the
      other is not given a worker. */
  lemma NoOvertaking(trace: seq<State>, steps: seq<Step>, i: nat, j: nat, a: GUID, b: GUID)
    requires IsRun(trace, steps) && i <= j < |trace|
    requires a in trace[i].queue && !Scheduled(trace[i], b)
    requires a in trace[j].queue && b in trace[j].conns && a in trace[j].conns
    requires Covers(trace[j].conns[a].nets, trace[j].conns[b].nets)
    ensures !Given(trace[j], b)
  {
    hide IsRun, Covers, ConnsOk, LockOk, TableOk, JustifiedOk, LifeOk;
    InvAlways(trace, steps, i);
    InvAlways(trace, steps, j);
    TicketsOverRun(trace, steps, i, j, a);
    TicketsOverRun(trace, steps, i, j, b);
    if Given(trace[j], b) {
      GivenIsScheduled(trace[j], b);
    }
  }

  // ---------- Accounting ----------

  /** Once schedule has answered, a request's reply history is one of four, and
      it is in the queue exactly while it is [Queued] and was not cancelled. */
  lemma ReplyHistories(trace: seq<State>, steps: seq<Step>, i: nat, g: GUID)
    requires IsRun(trace, steps) && i < |trace| && g in trace[i].conns
    requires trace[i].conns[g].caller.Done?
    ensures var c := trace[i].conns[g];
            var h := Replies(c);
            (h == [NoWorkers] || h == [Queued] ||
             (|h| == 1 && h[0].Valid?) || (|h| == 2 && h[0].Queued? && h[1].Valid?)) &&
            (g in trace[i].queue <==> h == [Queued] && !c.cancelled) &&
            (c.cancelled ==> h == [Queued])
    ensures forall p, r :: 0 <= p < r < |trace[i].queue| ==> trace[i].queue[p] != trace[i].queue[r]
  {
    var c := trace[i].conns[g];
    assert |c.sent| == 1 ==> Replies(c) == [c.sent[0].reply];
    ConnAlways(trace, steps, i, g);
    QueueHasNoRepeats(trace, steps, i);
  }

  lemma QueueHasNoRepeats(trace: seq<State>, steps: seq<Step>, i: nat)
    requires IsRun(trace, steps) && i < |trace|
    ensures forall p, r :: 0 <= p < r < |trace[i].queue| ==> trace[i].queue[p] != trace[i].queue[r]
  {
    hide IsRun, ConnsOk, LockOk, TableOk, JustifiedOk, FifoOk, LifeOk;
    InvAlways(trace, steps, i);
  }

  lemma CancelledStays(s: State, step: Step, g: GUID)
    requires Linked(s) && Enabled(s, step) && g in s.conns && s.conns[g].cancelled
    ensures g in Next(s, step).conns && Next(s, step).conns[g].cancelled
  {
    hide Servable, Dispatches, ArrivalReply, FirstAt, ServableIn, Quiet, Apply, Admissible, Without, IndexOf;
  }

  /** A request that was cancelled while queued is never served afterwards, and
      nothing more is written to its channel. */
  lemma {:induction false} CancelledIsNeverServed(trace: seq<State>, steps: seq<Step>, i: nat, j: nat, g: GUID)
    requires IsRun(trace, steps) && i <= j < |trace| && g in trace[i].conns && trace[i].conns[g].cancelled
    ensures g in trace[j].conns && trace[j].conns[g].cancelled
    ensures g !in trace[j].queue && !Given(trace[j], g) && Replies(trace[j].conns[g]) == [Queued]
    decreases j
  {
    hide IsRun, Next, Enabled;
    if i < j {
      CancelledIsNeverServed(trace, steps, i, j - 1, g);
      RunStep(trace, steps, j);
      CancelledStays(trace[j - 1], steps[j - 1], g);
    }
    ConnAlways(trace, steps, j, g);
    LinkedAlways(trace, steps, j);
    var c := trace[j].conns[g];
    assert |c.sent| == 1 ==> Replies(c) == [c.sent[0].reply];
  }

  ghost function AllScheduled(s: State): set<GUID> {
    set g | g in s.conns && Scheduled(s, g)
  }

  ghost function ToldNoWorkers(s: State): set<GUID> {
    set g | g in s.conns && |s.conns[g].sent| == 1 && s.conns[g].sent[0].reply.NoWorkers?
  }

  ghost function ServedOnes(s: State): set<GUID> {
    set g | g in s.conns && Served(s.conns[g])
  }

  ghost function CancelledOnes(s: State): set<GUID> {
    set g | g in s.conns && s.conns[g].cancelled
  }

  ghost function Elements(q: seq<GUID>): set<GUID> {
    set g | g in q
  }

  lemma {:induction false} DistinctLength(q: seq<GUID>)
    requires forall i, j :: 0 <= i < j < |q| ==> q[i] != q[j]
    ensures |Elements(q)| == |q|
  {
    if |q| > 0 {
      var n := |q| - 1;
      DistinctLength(q[..n]);
      assert q == q[..n] + [q[n]];
      assert q[n] !in Elements(q[..n]);
      assert Elements(q) == Elements(q[..n]) + {q[n]};
    }
  }

  /** The request that schedule is about to answer without queueing it. */
  function BeingAnswered(s: State): set<GUID> {
    if s.lock.Offering? && !s.lock.reply.Queued? then {s.lock.guid} else {}
  }

  /** A request that entered schedule is in one class and no other. */
  lemma OneClass(c: Conn, queued: bool, p: Pending)
    requires ConnOk(c, queued, p)
    ensures var told := |c.sent| == 1 && c.sent[0].reply.NoWorkers?;
            var answered := p.Offer? && !p.reply.Queued?;
            (!c.caller.Calling? <==> told || Served(c) || c.cancelled || queued || answered) &&
            !(told && Served(c)) && !(c.cancelled && (told || Served(c))) &&
            !(queued && (told || Served(c) || c.cancelled)) &&
            !(answered && (told || Served(c) || c.cancelled || queued))
  {
  }

  /** In every state of every run the requests that entered schedule are those
      told that there are no workers, those served, those cancelled, those in
      the queue and the one that schedule is just answering at once, each
      counted once. */
  lemma RequestsAddUp(trace: seq<State>, steps: seq<Step>, i: nat)
    requires IsRun(trace, steps) && i < |trace|
    ensures var s := trace[i];
            |AllScheduled(s)| ==
            |ToldNoWorkers(s)| + |ServedOnes(s)| + |CancelledOnes(s)| + |s.queue| +
            (if s.lock.Offering? && !s.lock.reply.Queued? then 1 else 0)
  {
    hide IsRun, ConnOk, QueueOk, Served;
    var s := trace[i];
    var queued := Elements(s.queue);
    LinkedAlways(trace, steps, i);
    QueueHasNoRepeats(trace, steps, i);
    DistinctLength(s.queue);
    forall g | g in s.conns
      ensures g in AllScheduled(s) <==>
              g in ToldNoWorkers(s) || g in ServedOnes(s) || g in CancelledOnes(s) || g in queued ||
              g in BeingAnswered(s)
      ensures !(g in ToldNoWorkers(s) && g in ServedOnes(s))
      ensures !(g in CancelledOnes(s) && (g in ToldNoWorkers(s) || g in ServedOnes(s)))
      ensures !(g in queued && (g in ToldNoWorkers(s) || g in ServedOnes(s) || g in CancelledOnes(s)))
      ensures !(g in BeingAnswered(s) &&
                (g in ToldNoWorkers(s) || g in ServedOnes(s) || g in CancelledOnes(s) || g in queued))
    {
      ConnAlways(trace, steps, i, g);
      OneClass(s.conns[g], g in s.queue, PendingFor(s.lock, g));
    }
    FiveParts(AllScheduled(s), ToldNoWorkers(s), ServedOnes(s), CancelledOnes(s), queued, BeingAnswered(s));
  }

  lemma LinkedAlways(trace: seq<State>, steps: seq<Step>, i: nat)
    requires IsRun(trace, steps) && i < |trace|
    ensures Linked(trace[i])
  {
    hide IsRun, ConnsOk, QueueOk, LockOk, TableOk, JustifiedOk, FifoOk, LifeOk, Linked;
    InvAlways(trace, steps, i);
  }

  lemma FiveParts(all: set<GUID>, a: set<GUID>, b: set<GUID>, c: set<GUID>, d: set<GUID>, e: set<GUID>)
    requires forall g :: g in all <==> g in a || g in b || g in c || g in d || g in e
    requires a !! b && c !! a && c !! b && d !! a && d !! b && d !! c && e !! a && e !! b && e !! c && e !! d
    ensures |all| == |a| + |b| + |c| + |d| + |e|
  {
    assert all == a + b + c + d + e;
    assert |a + b + c + d + e| == |a + b + c + d| + |e|;
    assert |a + b + c + d| == |a + b + c| + |d|;
    assert |a + b + c| == |a + b| + |c|;
  }
}

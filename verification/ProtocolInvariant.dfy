/**
 What every step of the protocol keeps.
 */
module ProtocolInvariant {
  import opened Wrappers
  import opened Workers
  import opened WorkerTable
  import opened Queues
  import opened Scheduler
  import opened Protocol

  // ---------- One connection ----------

  /** What the lock holder is about to write to one connection's channel. */
  datatype Pending = Nothing | Offer(reply: Reply) | Grant(reply: Reply)

  function PendingFor(lock: Lock, g: GUID): Pending {
    if lock.Offering? && lock.guid == g then Offer(lock.reply)
    else if lock.Granting? && lock.guid == g then Grant(lock.reply)
    else Nothing
  }

  predicate OnlyQueued(c: Conn) {
    |c.sent| == 1 && c.sent[0].reply.Queued?
  }

  /** The whole reply history of a request that went through schedule: one reply
      of any kind, or Queued and then a valid reply. */
  predicate HistoryOk(c: Conn) {
    |c.sent| == 1 || (|c.sent| == 2 && c.sent[0].reply.Queued? && c.sent[1].reply.Valid?)
  }

  /** How many replies the waiter has taken from the channel. */
  function Taken(c: Conn): int {
    |c.sent| - |c.channel|
  }

  predicate TookValid(c: Conn) {
    0 < Taken(c) <= |c.sent| && c.sent[Taken(c) - 1].reply.Valid?
  }

  /** The channel holds what was sent last and not taken yet. */
  predicate ChannelOk(c: Conn) {
    |c.channel| <= 1 && |c.channel| <= |c.sent| &&
    (|c.channel| == 1 ==> c.channel[0] == c.sent[|c.sent| - 1].reply)
  }

  predicate CallerOk(c: Conn, queued: bool, p: Pending) {
    (c.caller.Calling? ==> c.sent == [] && !queued && p == Nothing) &&
    (c.caller.Scheduling? <==> p.Offer?) &&
    (p.Offer? ==> c.sent == [] && (queued <==> p.reply.Queued?)) &&
    (p.Grant? ==> queued && p.reply.Valid?) &&
    (c.caller.Done? ==> HistoryOk(c) && (queued <==> OnlyQueued(c) && !c.cancelled)) &&
    (c.cancelled ==> OnlyQueued(c) && c.waiter.Left?)
  }

  predicate WaiterOk(c: Conn) {
    match c.waiter
    case Relaying(reply) => 0 < Taken(c) <= |c.sent| && reply == c.sent[Taken(c) - 1].reply
    case Left => TookValid(c) || c.broken
    case Cancelling => !TookValid(c) && c.broken
    case _ => !TookValid(c)
  }

  predicate WireOk(c: Conn) {
    forall i :: 0 <= i < |c.wire| ==>
      match c.wire[i]
      case Queued => true
      case Valid(_, _, _, _) =>
        i == |c.wire| - 1 && c.waiter.Left? && TookValid(c) && c.wire[i] == c.sent[Taken(c) - 1].reply
      case NoWorkers =>
        |c.sent| == Taken(c) == 1 && c.sent[0].reply.NoWorkers? && !c.waiter.Relaying? &&
        forall j :: 0 <= j < |c.wire| && j != i ==> c.wire[j].Queued?
  }

  /** The client reads in order and judges by the last reply it read; all before
      that told it to wait. */
  predicate ClientOk(c: Conn) {
    c.read <= |c.wire| &&
    (forall i :: 0 <= i < c.read - (if c.client.Reading? then 0 else 1) ==> c.wire[i].Queued?) &&
    (!c.client.Reading? ==> c.read > 0) &&
    match c.client
    case Reading => true
    case Found(reply) => reply.Valid? && c.wire[c.read - 1] == reply
    case NoneInCluster => c.wire[c.read - 1].NoWorkers?
    case TimedOut => c.wire[c.read - 1].Queued?
    case _ => false
  }

  /** Unless a send has failed, every reply taken from the channel has reached
      the connection, save one that is just being sent. */
  predicate NothingLost(c: Conn) {
    !c.broken ==>
      forall n :: 0 <= n < Taken(c) - (if c.waiter.Relaying? then 1 else 0) && n < |c.sent| ==>
        c.sent[n].reply in c.wire
  }

  predicate ConnOk(c: Conn, queued: bool, p: Pending) {
    ChannelOk(c) && CallerOk(c, queued, p) && WaiterOk(c) && WireOk(c) && NothingLost(c) && ClientOk(c)
  }

  // ---------- The queue ----------

  predicate Scheduled(s: State, g: GUID) {
    g in s.conns && !s.conns[g].caller.Calling?
  }

  /** Everything queued went through schedule, and the queue is in ticket order. */
  predicate QueueOk(s: State) {
    (forall i :: 0 <= i < |s.queue| ==> Scheduled(s, s.queue[i])) &&
    (forall i, j :: 0 <= i < j < |s.queue| ==> s.conns[s.queue[i]].ticket < s.conns[s.queue[j]].ticket) &&
    (forall g :: g in s.conns && Scheduled(s, g) ==> s.conns[g].ticket < s.tickets)
  }

  predicate ConnsOk(s: State) {
    forall g :: g in s.conns ==> ConnOk(s.conns[g], g in s.queue, PendingFor(s.lock, g))
  }

  /** Taking an entry out of the queue takes out that request and no other. */
  lemma TakenOut(s: State, i: nat)
    requires QueueOk(s) && i < |s.queue|
    ensures forall g :: g in Without(s.queue, i) <==> g in s.queue && g != s.queue[i]
  {
    WithoutMembers(s.queue, i);
  }

  ghost predicate Base(s: State) {
    Linked(s) && QueueOk(s) && ConnsOk(s)
  }

  /** The connection a step acts on. */
  function Subject(s: State, step: Step): Option<GUID> {
    match step
    case Arrive(g, _) => Some(g)
    case Schedule(g, _) => Some(g)
    case Deliver => Target(s.lock)
    case Pick(i, _) => if i < |s.queue| then Some(s.queue[i]) else None
    case Receive(g) => Some(g)
    case Timeout(g) => Some(g)
    case SendOk(g) => Some(g)
    case SendFail(g) => Some(g)
    case Cancel(g) => Some(g)
    case ClientRead(g, _) => Some(g)
    case _ => None
  }

  /** A step touches no connection but its subject. */
  lemma OthersKeep(s: State, step: Step, g: GUID)
    requires Base(s) && Enabled(s, step) && Subject(s, step) != Some(g)
    ensures g in Next(s, step).conns <==> g in s.conns
    ensures g in s.conns ==> Next(s, step).conns[g] == s.conns[g]
    ensures g in Next(s, step).queue <==> g in s.queue
    ensures PendingFor(Next(s, step).lock, g) == PendingFor(s.lock, g)
  {
    hide Servable, Dispatches, ArrivalReply, ConnsOk, FirstAt, ServableIn, Quiet, Apply;
    hide Admissible, Received, SentOk, SendFailed, Written, ReadBy;
    if step.Deliver? && s.lock.Granting? {
      TakenOut(s, s.lock.index);
    } else if step.Cancel? && step.g in s.queue {
      TakenOut(s, IndexOf(s.queue, step.g));
    }
  }

  lemma LinkedStep(s: State, step: Step)
    requires Base(s) && Enabled(s, step)
    ensures Linked(Next(s, step))
  {
    hide Servable, Dispatches, ArrivalReply, ConnsOk, FirstAt, ServableIn, Quiet, Apply;
    hide Admissible, Received, SentOk, SendFailed, Written, ReadBy;
    var s' := Next(s, step);
    if step.Deliver? && s.lock.Granting? {
      TakenOut(s, s.lock.index);
    } else if step.Cancel? && step.g in s.queue {
      TakenOut(s, IndexOf(s.queue, step.g));
    }
  }

  lemma CallingIsNotQueued(s: State, g: GUID)
    requires Base(s) && g in s.conns && s.conns[g].caller.Calling?
    ensures g !in s.queue
  {
    assert ConnOk(s.conns[g], g in s.queue, PendingFor(s.lock, g));
  }

  lemma TargetIsScheduled(s: State)
    requires Base(s) && Target(s.lock).Some?
    ensures Scheduled(s, Target(s.lock).value)
  {
    var g := Target(s.lock).value;
    assert ConnOk(s.conns[g], g in s.queue, PendingFor(s.lock, g));
  }

  /** Once taken, a ticket and a list of networks stay. */
  lemma TicketsKeep(s: State, step: Step, g: GUID)
    requires Base(s) && Enabled(s, step) && g in s.conns
    ensures g in Next(s, step).conns && Next(s, step).conns[g].nets == s.conns[g].nets
    ensures Scheduled(s, g) ==> Scheduled(Next(s, step), g) && Next(s, step).conns[g].ticket == s.conns[g].ticket
    ensures !Scheduled(s, g) && Scheduled(Next(s, step), g) ==>
              step.Schedule? && step.g == g && Next(s, step).conns[g].ticket == s.tickets
    ensures Next(s, step).tickets == s.tickets + (if step.Schedule? then 1 else 0)
  {
    hide Servable, Dispatches, ArrivalReply, ConnsOk, FirstAt, ServableIn, Quiet, Apply, Admissible, QueueOk;
    hide Received, SentOk, SendFailed, Written, ReadBy, Without, IndexOf;
    if step.Deliver? {
      TargetIsScheduled(s);
    }
  }

  /** The position a step takes out of the queue, or the length if it takes none. */
  function Removed(s: State, step: Step): nat {
    if step.Deliver? && s.lock.Granting? then s.lock.index
    else if step.Cancel? && step.g in s.queue then IndexOf(s.queue, step.g)
    else |s.queue|
  }

  /** How a step changes the queue. */
  lemma QueueChange(s: State, step: Step)
    requires Base(s) && Enabled(s, step)
    ensures Next(s, step).queue ==
            if Removed(s, step) < |s.queue| then Without(s.queue, Removed(s, step))
            else if step.Schedule? && step.reply.Queued? then s.queue + [step.g]
            else s.queue
  {
    hide Servable, Dispatches, ArrivalReply, ConnsOk, FirstAt, ServableIn, Quiet, Apply;
    hide Admissible, Received, SentOk, SendFailed, Written, ReadBy, QueueOk;
  }

  lemma NewConnIsCalling(s: State, step: Step, g: GUID)
    requires Base(s) && Enabled(s, step) && g !in s.conns
    ensures !Scheduled(Next(s, step), g)
    ensures s.tickets <= Next(s, step).tickets
  {
    hide Servable, Dispatches, ArrivalReply, FirstAt, ServableIn, Quiet, Apply, Admissible, ConnsOk, QueueOk;
    hide Received, SentOk, SendFailed, Written, ReadBy, Without, IndexOf;
  }

  /** Tickets are handed out in order and never change. */
  lemma NewTickets(s: State, step: Step)
    requires Base(s) && Enabled(s, step)
    ensures forall g :: Scheduled(Next(s, step), g) ==>
              Next(s, step).conns[g].ticket < Next(s, step).tickets
  {
    hide ConnsOk, Next, Enabled;
    forall g | Scheduled(Next(s, step), g)
      ensures Next(s, step).conns[g].ticket < Next(s, step).tickets
    {
      if g in s.conns {
        TicketsKeep(s, step, g);
      } else {
        assert false by { NewConnIsCalling(s, step, g); }
      }
    }
  }

  lemma ScheduleIsNew(s: State, g: GUID, reply: Reply)
    requires Base(s) && Enabled(s, Schedule(g, reply))
    ensures g !in s.queue
    ensures Scheduled(Next(s, Schedule(g, reply)), g) && Next(s, Schedule(g, reply)).conns[g].ticket == s.tickets
  {
    hide Servable, Dispatches, ArrivalReply, ConnsOk;
    CallingIsNotQueued(s, g);
  }

  lemma QueueStep(s: State, step: Step)
    requires Base(s) && Enabled(s, step)
    ensures QueueOk(Next(s, step))
  {
    hide ConnsOk, Next, Enabled;
    var s' := Next(s, step);
    LinkedStep(s, step);
    QueueChange(s, step);
    NewTickets(s, step);
    forall g | g in s.queue
      ensures Scheduled(s', g) && s'.conns[g].ticket == s.conns[g].ticket
    {
      TicketsKeep(s, step, g);
    }
    if Removed(s, step) < |s.queue| {
      ShorterQueueOk(s, s', Removed(s, step));
    } else if step.Schedule? && step.reply.Queued? {
      ScheduleIsNew(s, step.g, step.reply);
      LongerQueueOk(s, s', step.g);
    } else {
      SameQueueOk(s, s');
    }
  }

  /** What a step leaves of the tickets of the queue it found. */
  ghost predicate TicketsStay(s: State, s': State) {
    (forall g :: g in s.queue && g in s.conns ==> Scheduled(s', g) && s'.conns[g].ticket == s.conns[g].ticket) &&
    forall g :: Scheduled(s', g) ==> s'.conns[g].ticket < s'.tickets
  }

  lemma SameQueueOk(s: State, s': State)
    requires QueueOk(s) && TicketsStay(s, s') && s'.queue == s.queue
    ensures QueueOk(s')
  {
  }

  lemma LongerQueueOk(s: State, s': State, g: GUID)
    requires QueueOk(s) && TicketsStay(s, s') && s'.queue == s.queue + [g]
    requires Scheduled(s', g) && s'.conns[g].ticket == s.tickets
    ensures QueueOk(s')
  {
    assert forall j :: 0 <= j < |s.queue| ==> s'.queue[j] == s.queue[j];
  }

  lemma ShorterQueueOk(s: State, s': State, i: nat)
    requires QueueOk(s) && TicketsStay(s, s') && i < |s.queue| && s'.queue == Without(s.queue, i)
    ensures QueueOk(s')
  {
    assert forall j :: 0 <= j < |s'.queue| ==> s'.queue[j] == s.queue[if j < i then j else j + 1];
  }

  // ---------- One connection, step by step ----------

  lemma WrittenOk(c: Conn, sent: Sent, queued: bool, p: Pending)
    requires ConnOk(c, queued, p) && c.channel == [] && !p.Nothing? && sent.reply == p.reply
    ensures p.Offer? ==> ConnOk(Written(c, sent).(caller := Done), queued, Nothing)
    ensures p.Grant? ==> ConnOk(Written(c, sent), false, Nothing)
  {
  }

  lemma ReceivedOk(c: Conn, queued: bool, p: Pending)
    requires ConnOk(c, queued, p) && c.channel != [] && c.waiter.Looping?
    ensures ConnOk(Received(c), queued, p)
  {
  }

  lemma SentOkOk(c: Conn, queued: bool, p: Pending)
    requires ConnOk(c, queued, p) && (c.waiter.Relaying? || c.waiter.Reminding?)
    ensures ConnOk(SentOk(c), queued, p)
  {
  }

  lemma SendFailedOk(c: Conn, queued: bool, p: Pending)
    requires ConnOk(c, queued, p) && (c.waiter.Relaying? || c.waiter.Reminding?)
    ensures ConnOk(SendFailed(c), queued, p)
  {
  }

  lemma ReadOk(c: Conn, late: bool, queued: bool, p: Pending)
    requires ConnOk(c, queued, p) && c.client.Reading? && c.read < |c.wire|
    ensures ConnOk(ReadBy(c, late), queued, p)
  {
  }

  lemma ArriveOk(s: State, step: Step)
    requires Base(s) && Enabled(s, step) && step.Arrive?
    ensures ConnOk(Next(s, step).conns[step.g], step.g in s.queue, PendingFor(s.lock, step.g))
  {
  }

  lemma DeliverOk(s: State, g: GUID)
    requires Base(s) && Enabled(s, Deliver) && Target(s.lock) == Some(g)
    ensures ConnOk(Next(s, Deliver).conns[g], g in Next(s, Deliver).queue, Nothing)
  {
    hide Servable, Dispatches, ArrivalReply, FirstAt, ServableIn, Quiet, Apply, ConnOk;
    var p := PendingFor(s.lock, g);
    assert ConnOk(s.conns[g], g in s.queue, p);
    WrittenOk(s.conns[g], Sent(s.lock.reply, s.workers), g in s.queue, p);
    if s.lock.Granting? {
      TakenOut(s, s.lock.index);
    }
  }

  lemma LeavingOk(c: Conn, queued: bool)
    requires ConnOk(c, queued, Nothing) && c.waiter.Cancelling?
    ensures if queued then ConnOk(c.(waiter := Left, cancelled := true), false, Nothing)
            else ConnOk(c.(waiter := Left), false, Nothing)
  {
  }

  lemma CancelOk(s: State, g: GUID)
    requires Base(s) && Enabled(s, Cancel(g))
    ensures ConnOk(Next(s, Cancel(g)).conns[g], g in Next(s, Cancel(g)).queue, Nothing)
  {
    hide ConnOk;
    assert ConnOk(s.conns[g], g in s.queue, PendingFor(s.lock, g));
    LeavingOk(s.conns[g], g in s.queue);
    if g in s.queue {
      TakenOut(s, IndexOf(s.queue, g));
    }
  }

  lemma ScheduleOk(s: State, g: GUID, reply: Reply)
    requires Base(s) && Enabled(s, Schedule(g, reply))
    ensures var s' := Next(s, Schedule(g, reply));
            ConnOk(s'.conns[g], g in s'.queue, Offer(reply))
  {
    hide Servable, Dispatches, ArrivalReply;
    assert ConnOk(s.conns[g], g in s.queue, PendingFor(s.lock, g));
  }

  lemma PickOk(s: State, i: nat, reply: Reply)
    requires Base(s) && Enabled(s, Pick(i, reply)) && reply.Valid?
    ensures ConnOk(s.conns[s.queue[i]], true, Grant(reply))
  {
    hide Servable, Dispatches, ArrivalReply, FirstAt, ServableIn;
    assert ConnOk(s.conns[s.queue[i]], true, PendingFor(s.lock, s.queue[i]));
  }

  lemma TimeoutOk(c: Conn, queued: bool, p: Pending)
    requires ConnOk(c, queued, p) && c.waiter.Looping?
    ensures ConnOk(c.(waiter := Reminding), queued, p)
  {
  }

  lemma SubjectStep(s: State, step: Step, g: GUID)
    requires Base(s) && Enabled(s, step) && Subject(s, step) == Some(g)
    ensures g in Next(s, step).conns
    ensures ConnOk(Next(s, step).conns[g], g in Next(s, step).queue, PendingFor(Next(s, step).lock, g))
  {
    hide Servable, Dispatches, ArrivalReply, FirstAt, ServableIn, Quiet, Apply, ConnOk, Admissible, QueueOk;
    hide Received, SentOk, SendFailed, Written, ReadBy, Without, IndexOf;
    var s' := Next(s, step);
    if step.Arrive? {
      ArriveOk(s, step);
    } else {
      var c, queued, p := s.conns[g], g in s.queue, PendingFor(s.lock, g);
      assert ConnOk(c, queued, p);
      match step {
        case Deliver =>
          DeliverOk(s, g);
        case Receive(_) => ReceivedOk(c, queued, p);
        case SendOk(_) => SentOkOk(c, queued, p);
        case SendFail(_) => SendFailedOk(c, queued, p);
        case ClientRead(_, late) => ReadOk(c, late, queued, p);
        case Cancel(_) => CancelOk(s, g);
        case Schedule(_, reply) => ScheduleOk(s, g, reply);
        case Pick(i, reply) =>
          var id := DispatchFacts(s.workers, c.nets, reply);
          PickOk(s, i, reply);
        case Timeout(_) => TimeoutOk(c, queued, p);
      }
    }
  }

  lemma BaseStep(s: State, step: Step)
    requires Base(s) && Enabled(s, step)
    ensures Base(Next(s, step))
  {
    LinkedStep(s, step);
    QueueStep(s, step);
    var s' := Next(s, step);
    forall g | g in s'.conns
      ensures ConnOk(s'.conns[g], g in s'.queue, PendingFor(s'.lock, g))
    {
      if Subject(s, step) == Some(g) {
        SubjectStep(s, step, g);
      } else {
        OthersKeep(s, step, g);
        assert ConnOk(s.conns[g], g in s.queue, PendingFor(s.lock, g));
      }
    }
  }
}

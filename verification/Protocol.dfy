/**
 The server under concurrency (server.go, scheduler.go, client.go) as a step
 system.

 Actors are the goroutines of each client connection (the one that calls
 schedule and the waiter), the worker connections, completion reports and the
 clients.  Each step is one atomic action of one actor; any enabled step may
 come next.  A reply channel is a sequence of at most one reply; a goroutine
 that writes to a full channel is blocked, and if it holds the scheduler's
 mutex, the mutex stays taken.  A client whose connection fails simply reads no
 more.
 */
module Protocol {
  import opened Wrappers
  import opened Net
  import opened Workers
  import opened WorkerTable
  import opened Queues
  import opened Scheduler
  import opened Client

  // ---------- State ----------

  /** The goroutine of a connection that calls schedule. */
  datatype Caller =
    | Calling    // has not entered schedule
    | Scheduling // inside schedule, writing the reply
    | Done       // left schedule

  /** The waiter goroutine of a connection. */
  datatype Waiter =
    | Looping                // in select
    | Relaying(reply: Reply) // sending a reply it took from the channel
    | Reminding              // sending Queued after a timeout
    | Cancelling             // a timeout's send failed: wants to cancel
    | Left                   // left the loop

  /** A write to a reply channel, with the workers known at that time. */
  datatype Sent = Sent(reply: Reply, workers: Table)

  datatype Conn = Conn(
    nets: seq<IPNet>,    // the client's networks
    ticket: nat,         // position in the order in which schedule was entered
    caller: Caller,
    waiter: Waiter,
    channel: seq<Reply>, // the reply channel
    sent: seq<Sent>,     // all that was written to the reply channel
    wire: seq<Reply>,    // all that was written to the connection
    read: nat,           // how much of that the client has read
    client: Outcome,
    broken: bool,        // a send on the connection has failed
    cancelled: bool)     // cancel found the request in the queue

  /** The scheduler's mutex and what its holder is about to do. */
  datatype Lock =
    | Free
    | Dispatching                                      // in the dispatch loop
    | Offering(guid: GUID, reply: Reply)               // in schedule, at its channel write
    | Granting(guid: GUID, index: nat, reply: Reply)   // in the dispatch loop, at its channel write

  /** A worker connection: the ID it reported first, and others it reported. */
  datatype Handler = Handler(first: MachineID, live: bool, strays: set<MachineID>)

  datatype State = State(
    workers: Table,
    queue: seq<GUID>,
    lock: Lock,
    conns: map<GUID, Conn>,
    tickets: nat,
    handlers: map<nat, Handler>,
    log: seq<WorkerEvent>) // what happened to the worker table

  // ---------- Steps ----------

  datatype Step =
    | Arrive(g: GUID, nets: seq<IPNet>)
    | Schedule(g: GUID, reply: Reply)       // enter schedule, decide on the reply
    | Deliver                               // the lock holder's channel write completes
    | Pick(index: nat, reply: Reply)        // the dispatch loop finds a request to serve
    | Release                               // the dispatch loop finds none
    | Receive(g: GUID)                      // the waiter takes a reply from the channel
    | Timeout(g: GUID)
    | SendOk(g: GUID)                       // the waiter's connection send succeeds
    | SendFail(g: GUID)
    | Cancel(g: GUID)
    | ClientRead(g: GUID, late: bool)
    | Connect(h: nat, state: WorkerState)   // first message of a worker connection
    | Refresh(h: nat, state: WorkerState)   // later message of a worker connection
    | Drop(h: nat)                          // a worker connection fails
    | Complete(id: MachineID, speed: real)  // a completion report

  /** No queued request could be served now. */
  ghost predicate Quiet(s: State)
    requires forall g :: g in s.queue ==> g in s.conns
  {
    forall g :: g in s.queue ==> !Servable(s.workers, s.conns[g].nets)
  }

  /** The request is known and some worker can serve it now. */
  ghost function ServableIn(s: State): GUID -> bool {
    (g: GUID) => g in s.conns && Servable(s.workers, s.conns[g].nets)
  }

  /** The channel the lock holder writes to, if it is at a write. */
  function Target(lock: Lock): Option<GUID> {
    match lock
    case Offering(g, _) => Some(g)
    case Granting(g, _, _) => Some(g)
    case _ => None
  }

  /** References between the parts of a state. */
  ghost predicate Linked(s: State) {
    (forall g :: g in s.queue ==> g in s.conns) &&
    (Target(s.lock).Some? ==> Target(s.lock).value in s.conns) &&
    (s.lock.Granting? ==> s.lock.index < |s.queue| && s.queue[s.lock.index] == s.lock.guid)
  }

  ghost predicate Enabled(s: State, step: Step)
    requires Linked(s)
  {
    match step
    case Arrive(g, nets) => g !in s.conns
    case Schedule(g, reply) =>
      g in s.conns && s.lock.Free? && s.conns[g].caller.Calling? && ArrivalReply(s.workers, s.conns[g].nets, reply)
    case Deliver => Target(s.lock).Some? && s.conns[Target(s.lock).value].channel == []
    case Pick(i, reply) =>
      s.lock.Dispatching? && i < |s.queue| && FirstAt(s.queue, ServableIn(s), i) &&
      Dispatches(s.workers, s.conns[s.queue[i]].nets, reply)
    case Release => s.lock.Dispatching? && Quiet(s)
    case Receive(g) => g in s.conns && s.conns[g].waiter.Looping? && s.conns[g].channel != []
    case Timeout(g) => g in s.conns && s.conns[g].waiter.Looping?
    case SendOk(g) => g in s.conns && (s.conns[g].waiter.Relaying? || s.conns[g].waiter.Reminding?)
    case SendFail(g) => g in s.conns && (s.conns[g].waiter.Relaying? || s.conns[g].waiter.Reminding?)
    case Cancel(g) => g in s.conns && s.lock.Free? && s.conns[g].waiter.Cancelling?
    case ClientRead(g, late) => g in s.conns && s.conns[g].client.Reading? && s.conns[g].read < |s.conns[g].wire|
    case Connect(h, state) => h !in s.handlers && s.lock.Free? && Admissible(Update(state))
    case Refresh(h, state) => h in s.handlers && s.handlers[h].live && s.lock.Free? && Admissible(Update(state))
    case Drop(h) => h in s.handlers && s.handlers[h].live && s.lock.Free?
    case Complete(id, speed) => s.lock.Free? && speed >= 0.0
  }

  /** What the steps of a waiter, a channel write and a client leave alone. */
  predicate SameRequest(c: Conn, d: Conn) {
    d.nets == c.nets && d.ticket == c.ticket && d.caller == c.caller
  }

  /** The waiter takes the reply out of the channel. */
  function Received(c: Conn): (d: Conn)
    requires c.channel != []
    ensures SameRequest(c, d) && d.sent == c.sent
  {
    c.(waiter := Relaying(c.channel[0]), channel := c.channel[1..])
  }

  /** The waiter's send on the connection succeeds. */
  function SentOk(c: Conn): (d: Conn)
    requires c.waiter.Relaying? || c.waiter.Reminding?
    ensures SameRequest(c, d) && d.sent == c.sent
  {
    if c.waiter.Reminding? then c.(wire := c.wire + [Queued], waiter := Looping)
    else c.(wire := c.wire + [c.waiter.reply], waiter := if c.waiter.reply.Valid? then Left else Looping)
  }

  /** The waiter's send on the connection fails.  Only the failure to remind the
      client makes it cancel. */
  function SendFailed(c: Conn): (d: Conn)
    requires c.waiter.Relaying? || c.waiter.Reminding?
    ensures SameRequest(c, d) && d.sent == c.sent
  {
    if c.waiter.Reminding? then c.(broken := true, waiter := Cancelling)
    else c.(broken := true, waiter := if c.waiter.reply.Valid? then Left else Looping)
  }

  /** A channel write completes. */
  function Written(c: Conn, sent: Sent): (d: Conn)
    ensures SameRequest(c, d) && d.sent == c.sent + [sent]
  {
    c.(channel := [sent.reply], sent := c.sent + [sent])
  }

  function ReadBy(c: Conn, late: bool): (d: Conn)
    requires c.read < |c.wire|
    ensures SameRequest(c, d) && d.sent == c.sent
  {
    c.(read := c.read + 1, client := Handle(Message(c.wire[c.read], late)))
  }

  function Put(s: State, g: GUID, c: Conn): State {
    s.(conns := s.conns[g := c])
  }

  /** An event on the worker table. */
  function Note(s: State, e: WorkerEvent): State {
    s.(workers := Apply(s.workers, e), log := s.log + [e])
  }

  ghost function Next(s: State, step: Step): State
    requires Linked(s) && Enabled(s, step)
  {
    match step
    case Arrive(g, nets) =>
      Put(s, g, Conn(nets, 0, Calling, Looping, [], [], [], 0, Reading, false, false))
    case Schedule(g, reply) =>
      Put(s, g, s.conns[g].(caller := Scheduling, ticket := s.tickets)).(
        tickets := s.tickets + 1,
        lock := Offering(g, reply),
        queue := if reply.Queued? then s.queue + [g] else s.queue)
    case Deliver =>
      var g := Target(s.lock).value;
      var c := Written(s.conns[g], Sent(s.lock.reply, s.workers));
      if s.lock.Offering? then
        Put(s, g, c.(caller := Done)).(lock := Free)
      else
        Put(s, g, c).(lock := Dispatching, queue := Without(s.queue, s.lock.index))
    case Pick(i, reply) => s.(lock := Granting(s.queue[i], i, reply))
    case Release => s.(lock := Free)
    case Receive(g) => Put(s, g, Received(s.conns[g]))
    case Timeout(g) => Put(s, g, s.conns[g].(waiter := Reminding))
    case SendOk(g) => Put(s, g, SentOk(s.conns[g]))
    case SendFail(g) => Put(s, g, SendFailed(s.conns[g]))
    case Cancel(g) =>
      if g in s.queue then
        Put(s, g, s.conns[g].(waiter := Left, cancelled := true)).(queue := Without(s.queue, IndexOf(s.queue, g)))
      else
        Put(s, g, s.conns[g].(waiter := Left))
    case ClientRead(g, late) => Put(s, g, ReadBy(s.conns[g], late))
    case Connect(h, state) =>
      Note(s, Update(state)).(lock := Dispatching, handlers := s.handlers[h := Handler(state.id, true, {})])
    case Refresh(h, state) =>
      var k := s.handlers[h];
      Note(s, Update(state)).(
        lock := Dispatching,
        handlers := s.handlers[h := if state.id == k.first then k else k.(strays := k.strays + {state.id})])
    case Drop(h) =>
      Note(s, Remove(s.handlers[h].first)).(handlers := s.handlers[h := s.handlers[h].(live := false)])
    case Complete(id, speed) => Note(s, Report(id, speed))
  }

  const INITIAL := State(map[], [], Free, map[], 0, map[], [])
}

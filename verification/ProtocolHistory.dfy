/**
 What a state says about the steps that led to it: the client's verdict as a
 function of its reads, the marks a failed send leaves, and what the lock
 protects.
 */
module ProtocolHistory {
  import opened Wrappers
  import opened Workers
  import opened WorkerTable
  import opened Queues
  import opened Scheduler
  import opened Client
  import opened Protocol
  import opened ProtocolInvariant
  import opened ProtocolSafety
  import opened ProtocolTheorems

  // ---------- The client's verdict ----------

  /** For each read of g's client among the steps, whether the deadline of its
      search had passed. */
  function Lates(steps: seq<Step>, g: GUID): seq<bool> {
    if |steps| == 0 then []
    else
      var n := |steps| - 1;
      Lates(steps[..n], g) + if steps[n].ClientRead? && steps[n].g == g then [steps[n].late] else []
  }

  /** What the reads yielded: the replies on the wire, from the first on. */
  function Input(wire: seq<Reply>, lates: seq<bool>): (input: seq<Incoming>)
    requires |lates| <= |wire|
    ensures |input| == |lates|
  {
    seq(|lates|, i requires 0 <= i < |lates| => Message(wire[i], lates[i]))
  }

  predicate AllWait(input: seq<Incoming>) {
    forall i :: 0 <= i < |input| ==> Waits(input[i])
  }

  lemma {:induction false} SearchGoesOn(input: seq<Incoming>, r: Incoming)
    requires AllWait(input)
    ensures Handle(r).Reading? <==> Waits(r)
    ensures !Waits(r) ==> Search(input + [r]) == Handle(r)
  {
    if |input| > 0 {
      assert Waits(input[0]);
      SearchGoesOn(input[1..], r);
      assert (input + [r])[1..] == input[1..] + [r];
    }
  }

  /** The client still reads if all it read told it to wait; otherwise its verdict
      is what its loop returns on what it read. */
  predicate Judges(client: Outcome, input: seq<Incoming>) {
    client == if AllWait(input) then Reading else Search(input)
  }

  /** What a step other than a read leaves of a connection. */
  predicate ReadsAlike(c: Conn, d: Conn) {
    d.read == c.read && c.wire <= d.wire && d.client == c.client
  }

  lemma NoReadChange(c: Conn)
    ensures c.channel != [] ==> ReadsAlike(c, Received(c))
    ensures c.waiter.Relaying? || c.waiter.Reminding? ==> ReadsAlike(c, SentOk(c)) && ReadsAlike(c, SendFailed(c))
    ensures forall sent :: ReadsAlike(c, Written(c, sent)) && ReadsAlike(c, Written(c, sent).(caller := Done))
  {
  }

  lemma NoReadStep(s: State, step: Step, g: GUID)
    requires Linked(s) && Enabled(s, step) && g in s.conns && !(step.ClientRead? && step.g == g)
    ensures g in Next(s, step).conns && ReadsAlike(s.conns[g], Next(s, step).conns[g])
  {
    hide Servable, Dispatches, ArrivalReply, FirstAt, ServableIn, Quiet, Apply, Admissible, Without, IndexOf;
    hide Received, SentOk, SendFailed, Written, ReadBy;
    NoReadChange(s.conns[g]);
  }

  lemma ReadStep(s: State, step: Step, g: GUID)
    requires Linked(s) && Enabled(s, step) && step.ClientRead? && step.g == g
    ensures g in s.conns && g in Next(s, step).conns
    ensures var c, c' := s.conns[g], Next(s, step).conns[g];
            c.client.Reading? && c.read < |c.wire| && c'.read == c.read + 1 && c'.wire == c.wire &&
            c'.client == Handle(Message(c.wire[c.read], step.late))
  {
    hide Handle;
  }

  lemma NewConnReadsNothing(s: State, step: Step, g: GUID)
    requires Linked(s) && Enabled(s, step) && g !in s.conns && g in Next(s, step).conns
    ensures var c := Next(s, step).conns[g]; c.read == 0 && c.client.Reading?
    ensures step.Arrive?
  {
    hide Servable, Dispatches, ArrivalReply, FirstAt, ServableIn, Quiet, Apply, Admissible, Without, IndexOf;
    hide Received, SentOk, SendFailed, Written, ReadBy;
  }

  lemma InputGrows(wire: seq<Reply>, wire': seq<Reply>, lates: seq<bool>)
    requires |lates| <= |wire| && wire <= wire'
    ensures Input(wire', lates) == Input(wire, lates)
    ensures forall late :: |lates| < |wire'| ==>
              Input(wire', lates + [late]) == Input(wire', lates) + [Message(wire'[|lates|], late)]
  {
  }

  lemma {:induction false} NobodyReadsBefore(trace: seq<State>, steps: seq<Step>, i: nat, g: GUID)
    requires IsRun(trace, steps) && i < |trace| && g !in trace[i].conns
    ensures Lates(steps[..i], g) == []
    decreases i
  {
    hide Next, Enabled;
    if i > 0 {
      assert steps[..i][..i - 1] == steps[..i - 1];
      if g in trace[i - 1].conns {
        ConnsOnlyGrow(trace[i - 1], steps[i - 1], g);
      }
      NobodyReadsBefore(trace, steps, i - 1, g);
      ReadsNeedAConnection(trace[i - 1], steps[i - 1]);
    }
  }

  lemma ReadsNeedAConnection(s: State, step: Step)
    requires Linked(s) && Enabled(s, step)
    ensures step.ClientRead? ==> step.g in s.conns
  {
  }

  /** In every interleaving a client's verdict is that of its reply loop on the
      replies it read, in the order of the wire and each with the lateness of its
      read; it still waits exactly while all of them told it to. */
  lemma {:induction false} VerdictFollowsReads(trace: seq<State>, steps: seq<Step>, i: nat, g: GUID)
    requires IsRun(trace, steps) && i < |trace| && g in trace[i].conns
    ensures var c, lates := trace[i].conns[g], Lates(steps[..i], g);
            c.read == |lates| <= |c.wire| && Judges(c.client, Input(c.wire, lates))
    decreases i
  {
    hide Next, Enabled, Handle, Search;
    var s, step, c' := trace[i - 1], steps[i - 1], trace[i].conns[g];
    var lates := Lates(steps[..i - 1], g);
    assert steps[..i][..i - 1] == steps[..i - 1];
    if g in s.conns {
      VerdictFollowsReads(trace, steps, i - 1, g);
      if step.ClientRead? && step.g == g {
        ReadStep(s, step, g);
        InputGrows(s.conns[g].wire, c'.wire, lates);
        var input, r := Input(c'.wire, lates), Message(c'.wire[|lates|], step.late);
        WaitingHasReadQueued(s.conns[g].client, input);
        SearchGoesOn(input, r);
        assert Input(c'.wire, lates + [step.late]) == input + [r];
        assert Waits(r) ==> AllWait(input + [r]);
        assert (input + [r])[|input|] == r;
      } else {
        NoReadStep(s, step, g);
        InputGrows(s.conns[g].wire, c'.wire, lates);
        assert lates + [] == lates;
      }
    } else {
      NobodyReadsBefore(trace, steps, i - 1, g);
      NewConnReadsNothing(s, step, g);
    }
  }

  /** The loop never returns that it still reads. */
  lemma {:induction false} SearchEnds(input: seq<Incoming>)
    ensures !Search(input).Reading?
  {
    if |input| > 0 {
      SearchEnds(input[1..]);
    }
  }

  lemma WaitingHasReadQueued(client: Outcome, input: seq<Incoming>)
    requires Judges(client, input) && client.Reading?
    ensures AllWait(input)
  {
    SearchEnds(input);
  }

  // ---------- Marks of failed sends ----------

  /** The waiter wants to cancel, or left without having taken a valid reply. */
  predicate GaveUp(c: Conn) {
    c.waiter.Cancelling? || (c.waiter.Left? && !TookValid(c))
  }

  /** Reminding g's client fails with this step. */
  predicate ReminderFails(s: State, step: Step, g: GUID) {
    step == SendFail(g) && g in s.conns && s.conns[g].waiter.Reminding?
  }

  /** The step takes g out of the queue because its client is gone. */
  predicate Cancels(s: State, step: Step, g: GUID) {
    step == Cancel(g) && g in s.queue
  }

  lemma GaveUpChange(c: Conn, queued: bool, p: Pending)
    requires ConnOk(c, queued, p)
    ensures c.channel == [] && !p.Nothing? ==>
              forall workers :: GaveUp(Written(c, Sent(p.reply, workers))) == GaveUp(c)
    ensures c.waiter.Relaying? || c.waiter.Reminding? ==> !GaveUp(SentOk(c))
    ensures c.waiter.Relaying? || c.waiter.Reminding? ==> (GaveUp(SendFailed(c)) <==> c.waiter.Reminding?)
    ensures c.read < |c.wire| ==> forall late :: GaveUp(ReadBy(c, late)) == GaveUp(c)
    ensures c.waiter.Cancelling? ==> !TookValid(c)
  {
  }

  lemma MarksByMove(s: State, step: Step, g: GUID)
    requires Linked(s) && Enabled(s, step) && MovesReply(step) && Subject(s, step) == Some(g) && g in s.conns
    requires ConnOk(s.conns[g], g in s.queue, PendingFor(s.lock, g))
    ensures g in Next(s, step).conns
    ensures var c, c' := s.conns[g], Next(s, step).conns[g];
            (c'.broken <==> c.broken || step == SendFail(g)) && c'.cancelled == c.cancelled &&
            (GaveUp(c') <==> GaveUp(c) || ReminderFails(s, step, g))
  {
    hide Servable, Dispatches, ArrivalReply, FirstAt, ServableIn, Quiet, Apply, Admissible, Without, IndexOf, ConnOk;
    hide TookValid, Handle;
    GaveUpChange(s.conns[g], g in s.queue, PendingFor(s.lock, g));
    if step.Deliver? {
      assert PendingFor(s.lock, g).reply == s.lock.reply;
      DoneKeepsGaveUp(Written(s.conns[g], Sent(s.lock.reply, s.workers)));
    }
  }

  lemma DoneKeepsGaveUp(c: Conn)
    ensures GaveUp(c.(caller := Done)) == GaveUp(c)
  {
  }

  lemma MarksByOther(s: State, step: Step, g: GUID)
    requires Linked(s) && Enabled(s, step) && !MovesReply(step) && Subject(s, step) == Some(g) && g in s.conns
    requires ConnOk(s.conns[g], g in s.queue, PendingFor(s.lock, g))
    ensures g in Next(s, step).conns
    ensures var c, c' := s.conns[g], Next(s, step).conns[g];
            c'.broken == c.broken && (c'.cancelled <==> c.cancelled || Cancels(s, step, g)) && GaveUp(c') == GaveUp(c)
  {
    hide Servable, Dispatches, ArrivalReply, FirstAt, ServableIn, Quiet, Apply, Admissible, Without, IndexOf, ConnOk;
    hide Received, SentOk, SendFailed, Written, ReadBy;
    GaveUpChange(s.conns[g], g in s.queue, PendingFor(s.lock, g));
  }

  lemma MarksStep(s: State, step: Step, g: GUID)
    requires Base(s) && Enabled(s, step) && g in s.conns
    ensures g in Next(s, step).conns
    ensures var c, c' := s.conns[g], Next(s, step).conns[g];
            (c'.broken <==> c.broken || step == SendFail(g)) &&
            (c'.cancelled <==> c.cancelled || Cancels(s, step, g)) &&
            (GaveUp(c') <==> GaveUp(c) || ReminderFails(s, step, g))
  {
    hide QueueOk, Enabled, Next, GaveUp, ConnOk;
    assert ConnOk(s.conns[g], g in s.queue, PendingFor(s.lock, g));
    if Subject(s, step) != Some(g) {
      OthersKeep(s, step, g);
    } else if MovesReply(step) {
      MarksByMove(s, step, g);
    } else {
      MarksByOther(s, step, g);
    }
  }

  lemma NewConnIsUnmarked(s: State, step: Step, g: GUID)
    requires Linked(s) && Enabled(s, step) && g !in s.conns && g in Next(s, step).conns
    ensures var c := Next(s, step).conns[g]; !c.broken && !c.cancelled && !GaveUp(c)
    ensures step.Arrive?
  {
    hide Servable, Dispatches, ArrivalReply, FirstAt, ServableIn, Quiet, Apply, Admissible, Without, IndexOf;
    hide Received, SentOk, SendFailed, Written, ReadBy;
  }

  lemma NoMarksWithoutConnection(s: State, step: Step, g: GUID)
    requires Linked(s) && Enabled(s, step) && g !in s.conns
    ensures step != SendFail(g) && !Cancels(s, step, g)
  {
  }

  /** In every interleaving a connection is marked broken exactly after a failed
      send, a request cancelled exactly after a cancel that found it queued, and a
      waiter gave up exactly after a failed reminder: the failure to relay a reply
      alone never makes it give up. */
  lemma {:induction false} MarksAreFailures(trace: seq<State>, steps: seq<Step>, i: nat, g: GUID)
    requires IsRun(trace, steps) && i < |trace|
    ensures (g in trace[i].conns && trace[i].conns[g].broken) <==> exists k :: 0 <= k < i && steps[k] == SendFail(g)
    ensures (g in trace[i].conns && trace[i].conns[g].cancelled) <==>
            exists k :: 0 <= k < i && Cancels(trace[k], steps[k], g)
    ensures (g in trace[i].conns && GaveUp(trace[i].conns[g])) <==>
            exists k :: 0 <= k < i && ReminderFails(trace[k], steps[k], g)
    decreases i
  {
    hide Next, Enabled, QueueOk, ConnsOk, GaveUp, Cancels, ReminderFails;
    if i > 0 {
      var n := i - 1;
      MarksAreFailures(trace, steps, n, g);
      RunStep(trace, steps, i);
      var s, step := trace[n], steps[n];
      if g in s.conns {
        MarksStep(s, step, g);
      } else {
        NoMarksWithoutConnection(s, step, g);
        NotReminding(s, step, g);
        if g in trace[i].conns {
          NewConnIsUnmarked(s, step, g);
        }
      }
      assert (exists k :: 0 <= k < i && steps[k] == SendFail(g)) <==>
             (exists k :: 0 <= k < n && steps[k] == SendFail(g)) || steps[n] == SendFail(g);
      assert (exists k :: 0 <= k < i && Cancels(trace[k], steps[k], g)) <==>
             (exists k :: 0 <= k < n && Cancels(trace[k], steps[k], g)) || Cancels(trace[n], steps[n], g);
      assert (exists k :: 0 <= k < i && ReminderFails(trace[k], steps[k], g)) <==>
             (exists k :: 0 <= k < n && ReminderFails(trace[k], steps[k], g)) || ReminderFails(trace[n], steps[n], g);
    }
  }

  lemma NotReminding(s: State, step: Step, g: GUID)
    requires g !in s.conns
    ensures !ReminderFails(s, step, g)
  {
  }

  // ---------- The waiter's program ----------

  predicate IsWaiterStep(step: Step, g: GUID) {
    match step
    case Receive(h) => h == g
    case Timeout(h) => h == g
    case SendOk(h) => h == g
    case SendFail(h) => h == g
    case Cancel(h) => h == g
    case _ => false
  }

  /** The steps of g's waiter, in order. */
  function WaiterSteps(steps: seq<Step>, g: GUID): seq<Step> {
    if |steps| == 0 then []
    else
      var n := |steps| - 1;
      WaiterSteps(steps[..n], g) + if IsWaiterStep(steps[n], g) then [steps[n]] else []
  }

  /** A beginning of the waiter's loop: a select, which takes a reply or times out,
      and then a send, over and over.  Only after a reminder that failed comes the
      cancel, and it is the last step. */
  predicate IsLoop(w: seq<Step>) {
    forall p :: 0 <= p < |w| ==> FollowsOn(w[..p], w[p])
  }

  predicate FollowsOn(w: seq<Step>, step: Step) {
    var n := |w|;
    if n == 0 then step.Receive? || step.Timeout?
    else if w[n - 1].Receive? || w[n - 1].Timeout? then step.SendOk? || step.SendFail?
    else if n > 1 && w[n - 2].Timeout? && w[n - 1].SendFail? then step.Cancel?
    else !w[n - 1].Cancel? && (step.Receive? || step.Timeout?)
  }

  /** Where in its loop the waiter is after these steps. */
  predicate StandsAt(w: seq<Step>, waiter: Waiter) {
    var n := |w|;
    match waiter
    case Looping => n == 0 || (n > 1 && (w[n - 1].SendOk? || (w[n - 1].SendFail? && !w[n - 2].Timeout?)))
    case Relaying(_) => n > 0 && w[n - 1].Receive?
    case Reminding => n > 0 && w[n - 1].Timeout?
    case Cancelling => n > 1 && w[n - 1].SendFail? && w[n - 2].Timeout?
    case Left => n > 1 && (w[n - 1].Cancel? || (w[n - 2].Receive? && (w[n - 1].SendOk? || w[n - 1].SendFail?)))
  }

  lemma WaiterStep(s: State, step: Step, g: GUID, w: seq<Step>)
    requires Linked(s) && Enabled(s, step) && g in s.conns && StandsAt(w, s.conns[g].waiter)
    ensures g in Next(s, step).conns
    ensures IsWaiterStep(step, g) ==> FollowsOn(w, step) && StandsAt(w + [step], Next(s, step).conns[g].waiter)
    ensures !IsWaiterStep(step, g) ==> Next(s, step).conns[g].waiter == s.conns[g].waiter
  {
    hide Servable, Dispatches, ArrivalReply, FirstAt, ServableIn, Quiet, Apply, Admissible, Without, IndexOf, Handle;
  }

  lemma NewWaiter(s: State, step: Step, g: GUID)
    requires Linked(s) && Enabled(s, step) && g !in s.conns
    ensures !IsWaiterStep(step, g)
    ensures g in Next(s, step).conns ==> Next(s, step).conns[g].waiter.Looping?
  {
    hide Servable, Dispatches, ArrivalReply, FirstAt, ServableIn, Quiet, Apply, Admissible, Without, IndexOf;
    hide Received, SentOk, SendFailed, Written, ReadBy;
  }

  /** In every interleaving the steps of each waiter are a beginning of its loop, and
      its state says how far it has come. */
  lemma {:induction false} WaitersFollowTheirLoop(trace: seq<State>, steps: seq<Step>, i: nat, g: GUID)
    requires IsRun(trace, steps) && i < |trace|
    ensures IsLoop(WaiterSteps(steps[..i], g))
    ensures if g in trace[i].conns then StandsAt(WaiterSteps(steps[..i], g), trace[i].conns[g].waiter)
            else WaiterSteps(steps[..i], g) == []
    decreases i
  {
    hide Next, Enabled, FollowsOn, StandsAt, IsWaiterStep;
    if i > 0 {
      var s, step := trace[i - 1], steps[i - 1];
      var w := WaiterSteps(steps[..i - 1], g);
      assert steps[..i][..i - 1] == steps[..i - 1];
      WaitersFollowTheirLoop(trace, steps, i - 1, g);
      if g in s.conns {
        WaiterStep(s, step, g, w);
        if IsWaiterStep(step, g) {
          assert forall p :: 0 <= p < |w| ==> (w + [step])[..p] == w[..p];
          assert (w + [step])[..|w|] == w;
        } else {
          assert w + [] == w;
        }
      } else {
        NewWaiter(s, step, g);
        assert w + [] == w;
        StartsLooping();
      }
    } else {
      StartsLooping();
    }
  }

  lemma StartsLooping()
    ensures StandsAt([], Looping)
  {
  }

  // ---------- What the lock protects ----------

  lemma HeldStep(s: State, step: Step)
    requires Base(s) && Enabled(s, step) && !s.lock.Free?
    ensures var s' := Next(s, step);
            s'.workers == s.workers && s'.log == s.log && s'.handlers == s.handlers && s'.tickets == s.tickets &&
            (!step.Deliver? ==> s'.queue == s.queue) &&
            (!step.Deliver? && !step.Pick? && !step.Release? ==> s'.lock == s.lock)
  {
    hide Servable, Dispatches, ArrivalReply, FirstAt, ServableIn, Quiet, Apply, Admissible, Without, IndexOf;
    hide Received, SentOk, SendFailed, Written, ReadBy, ConnsOk, QueueOk;
  }

  /** While the lock is held nobody else touches what it protects: the worker table,
      its history, the worker connections and the tickets stay, and the queue
      changes only with a write of the lock's holder. */
  lemma {:induction false} HeldLockProtects(trace: seq<State>, steps: seq<Step>, i: nat, j: nat)
    requires IsRun(trace, steps) && i <= j < |trace|
    requires forall k :: i <= k < j ==> !trace[k].lock.Free?
    ensures trace[j].workers == trace[i].workers && trace[j].log == trace[i].log
    ensures trace[j].handlers == trace[i].handlers && trace[j].tickets == trace[i].tickets
    ensures (forall k :: i <= k < j ==> !steps[k].Deliver?) ==> trace[j].queue == trace[i].queue
    decreases j
  {
    hide Next, Enabled, QueueOk, ConnsOk;
    if i < j {
      HeldLockProtects(trace, steps, i, j - 1);
      RunStep(trace, steps, j);
      HeldStep(trace[j - 1], steps[j - 1]);
    }
  }
}

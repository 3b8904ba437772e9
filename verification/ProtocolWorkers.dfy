/**
 The worker table over whole runs: its speeds, and which worker connections
 stand behind its entries.
 */
module ProtocolWorkers {
  import opened Workers
  import opened WorkerTable
  import opened Queues
  import opened Scheduler
  import opened Protocol
  import opened ProtocolInvariant
  import opened ProtocolSafety
  import opened ProtocolTheorems

  // ---------- The table is its history ----------

  /** The updates, reports and removals among the first i steps of a run. */
  function History(trace: seq<State>, steps: seq<Step>, i: nat): seq<WorkerEvent>
    requires i <= |steps| < |trace|
  {
    if i == 0 then [] else History(trace, steps, i - 1) + EventsOf(trace[i - 1], steps[i - 1])
  }

  lemma {:induction false} LogIsHistory(trace: seq<State>, steps: seq<Step>, i: nat)
    requires IsRun(trace, steps) && i < |trace|
    ensures trace[i].log == History(trace, steps, i)
    decreases i
  {
    hide Next, Enabled;
    if i > 0 {
      LogIsHistory(trace, steps, i - 1);
      LogStep(trace[i - 1], steps[i - 1]);
    }
  }

  /** In every interleaving the speed kept for a worker is the fold of exactly
      the reports received since it last joined, and a worker is known exactly
      from its joining until its removal. */
  lemma SpeedsFollowReports(trace: seq<State>, steps: seq<Step>, i: nat, id: MachineID) returns (j: nat, k: nat)
    requires IsRun(trace, steps) && i < |trace|
    ensures id in trace[i].workers ==> EntryIs(History(trace, steps, i), id, trace[i].workers[id], j, k)
    ensures id !in trace[i].workers ==> Gone(History(trace, steps, i), id)
  {
    LogIsHistory(trace, steps, i);
    TableAlways(trace, steps, i);
    j, k := TableFollowsHistory(trace[i].log, id);
  }

  lemma TableAlways(trace: seq<State>, steps: seq<Step>, i: nat)
    requires IsRun(trace, steps) && i < |trace|
    ensures trace[i].workers == Replay(trace[i].log)
  {
    hide IsRun, Base, LockOk, FifoOk, LifeOk, JustifiedOk;
    InvAlways(trace, steps, i);
  }

  // ---------- Known workers and live connections ----------

  /** Connection h has not dropped and reported this ID first. */
  predicate LiveFor(s: State, h: nat, id: MachineID) {
    h in s.handlers && s.handlers[h].live && s.handlers[h].first == id
  }

  /** Every known worker has a live connection that reported its ID first. */
  ghost predicate AllLive(s: State) {
    forall id :: id in s.workers ==> exists h :: LiveFor(s, h, id)
  }

  /** A later message of a connection reports an ID for which no live
      connection stands. */
  ghost predicate Foreign(s: State, step: Step) {
    step.Refresh? && forall h :: !LiveFor(s, h, step.state.id)
  }

  /** Every live connection's first ID is known. */
  ghost predicate AllKnown(s: State) {
    forall h, id :: LiveFor(s, h, id) ==> id in s.workers
  }

  /** A connection drops while another live one reported the same ID first, as
      after a reconnect. */
  ghost predicate SharedDrop(s: State, step: Step) {
    step.Drop? && step.h in s.handlers && exists h :: h != step.h && LiveFor(s, h, s.handlers[step.h].first)
  }

  predicate Reports(step: Step, id: MachineID) {
    (step.Connect? || step.Refresh?) && step.state.id == id
  }

  /** How a step changes who is known and which connections are live. */
  lemma LifetimeStep(s: State, step: Step, id: MachineID)
    requires Linked(s) && Enabled(s, step)
    ensures id in Next(s, step).workers <==>
            Reports(step, id) || (id in s.workers && !(step.Drop? && LiveFor(s, step.h, id)))
    ensures forall h :: LiveFor(Next(s, step), h, id) <==>
              (step.Connect? && step.h == h && step.state.id == id) ||
              (LiveFor(s, h, id) && !(step.Drop? && step.h == h))
  {
    hide Servable, Dispatches, ArrivalReply, FirstAt, ServableIn, Quiet, Admissible;
    hide Received, SentOk, SendFailed, Written, ReadBy, Without, IndexOf;
  }

  /** A worker without a live connection appears with a foreign report and in no
      other way. */
  lemma ForeignStep(s: State, step: Step)
    requires Linked(s) && Enabled(s, step) && AllLive(s)
    ensures AllLive(Next(s, step)) <==> !Foreign(s, step)
  {
    hide Next, Enabled;
    var s' := Next(s, step);
    forall id
      ensures id in s'.workers && (forall h :: !LiveFor(s', h, id)) <==> Foreign(s, step) && step.state.id == id
    {
      LifetimeStep(s, step, id);
      if id in s.workers {
        var h :| LiveFor(s, h, id);
        assert LiveFor(s', h, id) || (step.Drop? && LiveFor(s, step.h, id));
      }
      if step.Connect? && step.state.id == id {
        assert LiveFor(s', step.h, id);
      }
    }
    if Foreign(s, step) {
      assert step.state.id in s'.workers;
    }
  }

  /** Over whole runs: every known worker has always had a live connection if and
      only if no message was foreign. */
  lemma {:induction false} KnownWorkersAreLiveIff(trace: seq<State>, steps: seq<Step>, i: nat)
    requires IsRun(trace, steps) && i < |trace|
    ensures (forall k :: 0 <= k <= i ==> AllLive(trace[k])) <==>
            (forall k :: 0 <= k < i ==> !Foreign(trace[k], steps[k]))
    decreases i
  {
    hide Next, Enabled, AllLive, Foreign;
    if i == 0 {
      assert AllLive(INITIAL) by { NobodyKnown(); }
    } else {
      KnownWorkersAreLiveIff(trace, steps, i - 1);
      if AllLive(trace[i - 1]) {
        ForeignStep(trace[i - 1], steps[i - 1]);
      }
      assert (forall k :: 0 <= k < i ==> !Foreign(trace[k], steps[k])) <==>
             (forall k :: 0 <= k < i - 1 ==> !Foreign(trace[k], steps[k])) && !Foreign(trace[i - 1], steps[i - 1]);
      assert (forall k :: 0 <= k <= i ==> AllLive(trace[k])) <==>
             (forall k :: 0 <= k <= i - 1 ==> AllLive(trace[k])) && AllLive(trace[i]);
    }
  }

  lemma NobodyKnown()
    ensures AllLive(INITIAL) && AllKnown(INITIAL)
  {
  }

  /** A live connection's ID goes missing when a connection with the same first
      ID drops, and in no other way. */
  lemma SharedDropStep(s: State, step: Step)
    requires Linked(s) && Enabled(s, step) && AllKnown(s)
    ensures AllKnown(Next(s, step)) <==> !SharedDrop(s, step)
  {
    hide Next, Enabled;
    var s' := Next(s, step);
    forall h, id | LiveFor(s', h, id)
      ensures id !in s'.workers <==> step.Drop? && h != step.h && LiveFor(s, step.h, id)
    {
      LifetimeStep(s, step, id);
    }
    if step.Drop? {
      DropIsLive(s, step);
      LifetimeStep(s, step, s.handlers[step.h].first);
      if h :| h != step.h && LiveFor(s, h, s.handlers[step.h].first) {
        assert LiveFor(s', h, s.handlers[step.h].first);
      }
    }
  }

  lemma DropIsLive(s: State, step: Step)
    requires Linked(s) && Enabled(s, step) && step.Drop?
    ensures step.h in s.handlers && LiveFor(s, step.h, s.handlers[step.h].first)
  {
  }

  /** Over whole runs: every live connection's first ID has always been known if
      and only if no connection dropped beside a live one with its ID. */
  lemma {:induction false} LiveWorkersAreKnownIff(trace: seq<State>, steps: seq<Step>, i: nat)
    requires IsRun(trace, steps) && i < |trace|
    ensures (forall k :: 0 <= k <= i ==> AllKnown(trace[k])) <==>
            (forall k :: 0 <= k < i ==> !SharedDrop(trace[k], steps[k]))
    decreases i
  {
    hide Next, Enabled, AllKnown, SharedDrop;
    if i == 0 {
      NobodyKnown();
    } else {
      LiveWorkersAreKnownIff(trace, steps, i - 1);
      if AllKnown(trace[i - 1]) {
        SharedDropStep(trace[i - 1], steps[i - 1]);
      }
      assert (forall k :: 0 <= k < i ==> !SharedDrop(trace[k], steps[k])) <==>
             (forall k :: 0 <= k < i - 1 ==> !SharedDrop(trace[k], steps[k])) &&
             !SharedDrop(trace[i - 1], steps[i - 1]);
      assert (forall k :: 0 <= k <= i ==> AllKnown(trace[k])) <==>
             (forall k :: 0 <= k <= i - 1 ==> AllKnown(trace[k])) && AllKnown(trace[i]);
    }
  }

  /** At step k a connection other than h dropped and took the ID that both had
      reported first out of the table; nobody reported it again before step i. */
  ghost predicate TakenAway(trace: seq<State>, steps: seq<Step>, i: nat, k: nat, h: nat, id: MachineID)
    requires k < i <= |steps| < |trace|
  {
    steps[k].Drop? && steps[k].h != h && LiveFor(trace[k], steps[k].h, id) && LiveFor(trace[k], h, id) &&
    forall m :: k < m < i ==> !Reports(steps[m], id)
  }

  /** Exactly when the worker of a live connection is missing from the table. */
  lemma {:induction false} MissingIff(trace: seq<State>, steps: seq<Step>, i: nat, h: nat, id: MachineID)
    requires IsRun(trace, steps) && i < |trace| && LiveFor(trace[i], h, id)
    ensures id !in trace[i].workers <==> exists k: nat :: k < i && TakenAway(trace, steps, i, k, h, id)
    decreases i
  {
    hide Next, Enabled;
    if i > 0 {
      var s, step := trace[i - 1], steps[i - 1];
      LifetimeStep(s, step, id);
      if Reports(step, id) {
        assert forall k: nat :: k < i && TakenAway(trace, steps, i, k, h, id) ==> k == i - 1;
      } else if step.Drop? && LiveFor(s, step.h, id) {
        assert TakenAway(trace, steps, i, i - 1, h, id);
      } else {
        var n := i - 1;
        MissingIff(trace, steps, n, h, id);
        if k: nat :| k < i && TakenAway(trace, steps, i, k, h, id) {
          assert k < n && TakenAway(trace, steps, n, k, h, id);
        }
        if k: nat :| k < n && TakenAway(trace, steps, n, k, h, id) {
          assert TakenAway(trace, steps, i, k, h, id);
        }
      }
    }
  }

  // ---------- One ID for each connection ----------

  lemma StraysGrow(s: State, step: Step)
    requires Linked(s) && Enabled(s, step)
    requires forall h :: h in Next(s, step).handlers ==> Next(s, step).handlers[h].strays == {}
    ensures forall h :: h in s.handlers ==> s.handlers[h].strays == {}
    ensures !Foreign(s, step)
  {
    hide Servable, Dispatches, ArrivalReply, FirstAt, ServableIn, Quiet, Admissible, Apply;
    hide Received, SentOk, SendFailed, Written, ReadBy, Without, IndexOf;
    var s' := Next(s, step);
    forall h | h in s.handlers
      ensures s.handlers[h].strays == {}
    {
      assert h in s'.handlers && s.handlers[h].strays <= s'.handlers[h].strays;
    }
    if step.Refresh? {
      assert step.h in s'.handlers && step.state.id !in s'.handlers[step.h].strays;
      assert LiveFor(s, step.h, step.state.id);
    }
  }

  /** While connections report one ID each, no message is foreign. */
  lemma {:induction false} OneIdIsNotForeign(trace: seq<State>, steps: seq<Step>, i: nat)
    requires IsRun(trace, steps) && i < |trace|
    requires forall h :: h in trace[i].handlers ==> trace[i].handlers[h].strays == {}
    ensures forall k :: 0 <= k < i ==> !Foreign(trace[k], steps[k])
    decreases i
  {
    hide Next, Enabled, Foreign;
    if i > 0 {
      assert trace[i] == Next(trace[i - 1], steps[i - 1]);
      StraysGrow(trace[i - 1], steps[i - 1]);
      OneIdIsNotForeign(trace, steps, i - 1);
    }
  }

  /** Every known worker has a connection that reported its ID first and has not
      dropped, as long as no connection reported a second ID. */
  lemma WorkersLiveWithTheirConnections(trace: seq<State>, steps: seq<Step>, i: nat, id: MachineID) returns (h: nat)
    requires IsRun(trace, steps) && i < |trace| && id in trace[i].workers
    requires forall h :: h in trace[i].handlers ==> trace[i].handlers[h].strays == {}
    ensures trace[i].workers[id].id == id
    ensures LiveFor(trace[i], h, id)
  {
    StoredAlways(trace, steps, i);
    OneIdIsNotForeign(trace, steps, i);
    KnownWorkersAreLiveIff(trace, steps, i);
    assert AllLive(trace[i]);
    h :| LiveFor(trace[i], h, id);
  }

  /** Unless there was a foreign message, a valid reply on its way names a worker
      with a connection that has not dropped. */
  lemma DroppedWorkersAreNotHandedOut(trace: seq<State>, steps: seq<Step>, i: nat) returns (h: nat)
    requires IsRun(trace, steps) && i < |trace|
    requires Target(trace[i].lock).Some? && trace[i].lock.reply.Valid?
    requires forall k :: 0 <= k < i ==> !Foreign(trace[k], steps[k])
    ensures LiveFor(trace[i], h, trace[i].lock.reply.id)
  {
    InvAlways(trace, steps, i);
    var s := trace[i];
    var net := DispatchedAddressIsBest(s.workers, s.conns[s.lock.guid].nets, s.lock.reply);
    KnownWorkersAreLiveIff(trace, steps, i);
    assert AllLive(s);
    h :| LiveFor(s, h, s.lock.reply.id);
  }
}

/**
 Three runs that show where the protocol falls short: a failed send can take the
 lock away for good, a worker connection that reports a second ID leaves a
 worker behind when it drops, and the drop of a worker's old connection takes
 the worker away from its new one.
 */
module ProtocolWitnesses {
  import opened Net
  import opened Workers
  import opened WorkerTable
  import opened Scheduler
  import opened Protocol
  import opened ProtocolSafety
  import opened ProtocolProgress
  import opened ProtocolWorkers

  /** A network that contains every address outside the mapped interval. */
  const EVERYTHING := IPNet(ZERO, ZERO)
  const ZERO: Address := [0, 0, 0, 0, 0, 0, 0, 0, 0, 0, 0, 0, 0, 0, 0, 0]

  const FULL := WorkerState("w", "host", [], 1, 0, 0, 0, 0.0)
  const ROOMY := WorkerState("w", "host", [EVERYTHING], 1, 1, 0, 0, 0.0)

  lemma RoomyServesEveryone()
    ensures Admissible(Update(FULL)) && Admissible(Update(ROOMY))
    ensures !Servable(map["w" := FULL], [EVERYTHING])
    ensures Servable(map["w" := ROOMY], [EVERYTHING])
  {
    assert !HasSpace(FULL) && HasSpace(ROOMY);
    assert Shortest(ZERO) == ZERO && MaskFor(EVERYTHING).Some?;
    assert Contains(EVERYTHING, EVERYTHING.ip);
    assert Net.Reachable([EVERYTHING], ROOMY.addrs) by {
      assert EVERYTHING in [EVERYTHING] && EVERYTHING in ROOMY.addrs;
    }
    var workers := map["w" := ROOMY];
    assert "w" in workers && Candidate(workers["w"], [EVERYTHING]);
  }

  /** A client is queued while reminding it has already failed.  Before its
      waiter gets the lock to cancel, a worker's update makes it servable: the
      dispatch loop blocks on the unread Queued, the waiter on the lock. */
  lemma FailedSendCanTakeTheLockAway() returns (s: State)
    ensures Occurs(s) && !s.lock.Free? && !CanComeFree(s)
    ensures 1 in s.conns && s.conns[1].broken && s.conns[1].waiter.Cancelling? && Doomed(s, 1)
  {
    RoomyServesEveryone();
    hide Servable, Dispatches, Admissible, CanComeFree, Occurs;
    Starts();
    var connected := Next(INITIAL, Connect(0, FULL));
    Continues(INITIAL, Connect(0, FULL));
    var idle := Next(connected, Release);
    Continues(connected, Release);
    var arrived := Next(idle, Arrive(1, [EVERYTHING]));
    Continues(idle, Arrive(1, [EVERYTHING]));
    var reminding := Next(arrived, Timeout(1));
    Continues(arrived, Timeout(1));
    var failed := Next(reminding, SendFail(1));
    Continues(reminding, SendFail(1));
    assert failed.workers == map["w" := FULL];
    var offering := Next(failed, Schedule(1, Queued));
    Continues(failed, Schedule(1, Queued));
    var queued := Next(offering, Deliver);
    Continues(offering, Deliver);
    s := Next(queued, Refresh(0, ROOMY));
    Continues(queued, Refresh(0, ROOMY));
    assert s.workers == map["w" := ROOMY];
    NotFreeWhenDoomed(s, 1);
  }

  lemma NotFreeWhenDoomed(s: State, g: GUID)
    requires Occurs(s) && !s.lock.Free? && Doomed(s, g)
    ensures !CanComeFree(s)
  {
    hide Doomed, CanComeFree;
    var trace: seq<State>, steps: seq<Step> :| IsRun(trace, steps) && trace[|steps|] == s;
    LockComesFreeIff(trace, steps, |steps|);
  }

  /** After its only connection dropped, a worker reported under a second ID is
      still known. */
  lemma SecondIdOutlivesItsConnection() returns (s: State)
    ensures Occurs(s) && "x" in s.workers
    ensures forall h :: h in s.handlers ==> !s.handlers[h].live
  {
    RoomyServesEveryone();
    hide Servable, Dispatches, Occurs;
    Starts();
    var connected := Next(INITIAL, Connect(0, FULL));
    Continues(INITIAL, Connect(0, FULL));
    var idle := Next(connected, Release);
    Continues(connected, Release);
    var other := FULL.(id := "x");
    var strayed := Next(idle, Refresh(0, other));
    Continues(idle, Refresh(0, other));
    var released := Next(strayed, Release);
    Continues(strayed, Release);
    s := Next(released, Drop(0));
    Continues(released, Drop(0));
  }

  /** A worker connects again; when its old connection drops, the worker is
      unknown although the new connection lives. */
  lemma OldConnectionTakesTheWorkerAway() returns (s: State)
    ensures Occurs(s) && LiveFor(s, 1, "w") && "w" !in s.workers
  {
    RoomyServesEveryone();
    hide Servable, Dispatches, Occurs;
    Starts();
    var connected := Next(INITIAL, Connect(0, FULL));
    Continues(INITIAL, Connect(0, FULL));
    var idle := Next(connected, Release);
    Continues(connected, Release);
    var again := Next(idle, Connect(1, FULL));
    Continues(idle, Connect(1, FULL));
    var released := Next(again, Release);
    Continues(again, Release);
    s := Next(released, Drop(0));
    Continues(released, Drop(0));
  }
}

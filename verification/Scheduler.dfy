/**
 The first-in-first-out scheduler (scheduler.go) as a mutable class.

 Each method is one critical section of the scheduler's mutex.  What a method
 writes to a request's reply channel is appended to the request's field sent;
 when such a write blocks is the subject of module Protocol.
 */
module Scheduler {
  import opened Wrappers
  import opened Net
  import opened NetLists
  import opened Workers
  import opened WorkerTable
  import opened Queues

  type GUID = nat

  class SchedulerRequest {
    const guid: GUID
    const given: seq<IPNet> // the client's networks as they arrived
    var addrs: seq<IPNet>   // the same networks as searches leave them
    var active: bool
    var sent: seq<Reply>    // all that was written to the reply channel

    constructor (addrs: seq<IPNet>, guid: GUID)
      ensures this.guid == guid && this.addrs == given == addrs
      ensures active && sent == [] && Valid()
    {
      this.guid, this.addrs, this.given := guid, addrs, addrs;
      active, sent := true, [];
    }

    ghost predicate Valid()
      reads `addrs
    {
      multiset(addrs) == multiset(given)
    }

    /** Searches a worker for this request, sorting its networks on the way. */
    method Search(workers: Table) returns (reply: Option<Reply>)
      requires Valid()
      modifies `addrs
      ensures Valid() && IsSorting(old(addrs), addrs)
      ensures reply.Some? <==> Servable(workers, given)
      ensures reply.Some? ==> Dispatches(workers, given, reply.value)
    {
      ChoiceIgnoresOrder(workers, addrs, given);
      reply, addrs := FindFreeWorker(workers, addrs);
    }
  }

  /** Some worker can serve the request now. */
  ghost function CanServe(workers: Table): SchedulerRequest -> bool {
    (r: SchedulerRequest) => Servable(workers, r.given)
  }

  // ---------- The scheduler ----------

  /** The reply schedule gives to an arriving client. */
  ghost predicate ArrivalReply(workers: Table, nets: seq<IPNet>, reply: Reply) {
    if |workers| == 0 then reply == NoWorkers
    else if Servable(workers, nets) then Dispatches(workers, nets, reply)
    else reply == Queued
  }

  /** One valid reply was added to what a request was sent. */
  ghost predicate Granted(workers: Table, nets: seq<IPNet>, before: seq<Reply>, after: seq<Reply>) {
    exists reply :: Dispatches(workers, nets, reply) && after == before + [reply]
  }

  class FifoScheduler {
    var workers: Table
    var requests: seq<SchedulerRequest>
    ghost var served: seq<SchedulerRequest> // requests served from the queue, in order

    ghost predicate Valid()
      reads this, requests`addrs
    {
      Distinct(requests) && forall r :: r in requests ==> r.Valid()
    }

    /** No queued request could be served now. */
    ghost predicate Quiet()
      reads this
    {
      forall r :: r in requests ==> !Servable(workers, r.given)
    }

    constructor ()
      ensures Valid() && Quiet() && workers == map[] && requests == [] && served == []
    {
      workers, requests, served := map[], [], [];
    }

    method Schedule(req: SchedulerRequest)
      requires Valid() && req.Valid()
      requires req !in requests
      modifies `requests, req`sent, req`addrs
      ensures Valid()
      ensures exists reply ::
                ArrivalReply(workers, req.given, reply) && req.sent == old(req.sent) + [reply] &&
                requests == if reply.Queued? then old(requests) + [req] else old(requests)
      ensures workers == map[] ==> req.sent == old(req.sent) + [NoWorkers] && requests == old(requests)
      ensures workers != map[] && (forall id :: id in workers ==> !Candidate(workers[id], req.given)) ==>
                req.sent == old(req.sent) + [Queued] && requests == old(requests) + [req]
      ensures (exists id :: id in workers && Candidate(workers[id], req.given)) ==>
                |req.sent| == |old(req.sent)| + 1 && req.sent[|old(req.sent)|].Valid? && requests == old(requests)
      ensures old(Quiet()) ==> Quiet()
    {
      hide Candidate, Dispatches, Sorted;
      if |workers| == 0 {
        req.sent := req.sent + [NoWorkers];
        assert ArrivalReply(workers, req.given, NoWorkers);
        return;
      }
      var found := req.Search(workers);
      if found.Some? {
        ghost var id := DispatchFacts(workers, req.given, found.value);
        req.sent := req.sent + [found.value];
        assert ArrivalReply(workers, req.given, found.value);
      } else {
        requests := requests + [req];
        req.sent := req.sent + [Queued];
        assert ArrivalReply(workers, req.given, Queued);
      }
    }

    /** What the dispatch loop leaves behind of a queue q, seen from the state
        before: exactly the requests some worker can serve have left the queue,
        in queue order and with one valid reply each; the others are as they
        were. */
    twostate predicate Drained(q: seq<SchedulerRequest>)
      reads this, q
    {
      requests == Part(q, CanServe(workers), false) &&
      served == old(served) + Part(q, CanServe(workers), true) &&
      forall r :: r in q ==>
        if Servable(workers, r.given) then Granted(workers, r.given, old(r.sent), r.sent) else r.sent == old(r.sent)
    }

    /** The inner loop: serves the first request that some worker can serve. */
    method ServeFirst() returns (found: int)
      requires Valid()
      modifies requests`sent, requests`addrs
      ensures Valid()
      ensures -1 <= found < |requests|
      ensures found == -1 ==> forall r :: r in requests ==> !Servable(workers, r.given)
      ensures found >= 0 ==>
                FirstAt(requests, CanServe(workers), found) && Servable(workers, requests[found].given) &&
                Granted(workers, requests[found].given, old(requests[found].sent), requests[found].sent)
      ensures forall i :: 0 <= i < |requests| && i != found ==> requests[i].sent == old(requests[i].sent)
    {
      hide Servable, Dispatches;
      for idx := 0 to |requests|
        invariant Valid()
        invariant forall j :: 0 <= j < idx ==> !Servable(workers, requests[j].given)
        invariant forall i :: 0 <= i < |requests| ==> requests[i].sent == old(requests[i].sent)
      {
        var req := requests[idx];
        var wr := req.Search(workers);
        if wr.Some? {
          req.sent := req.sent + [wr.value];
          return idx;
        }
      }
      return -1;
    }

    /** Takes the request just served out of the queue. */
    method RemoveServed(found: nat)
      requires Valid() && FirstAt(requests, CanServe(workers), found)
      modifies `requests, `served
      ensures Valid() && requests == Without(old(requests), found)
      ensures forall r :: r in requests <==> r in old(requests) && r != old(requests)[found]
      ensures Part(requests, CanServe(workers), false) == Part(old(requests), CanServe(workers), false)
      ensures served + Part(requests, CanServe(workers), true) ==
              old(served) + Part(old(requests), CanServe(workers), true)
    {
      hide Part, Servable;
      TakeFirst(requests, CanServe(workers), found);
      WithoutMembers(requests, found);
      served := served + [requests[found]];
      requests := requests[..found] + requests[found + 1..];
    }

    /** How far the dispatch loop has come with the queue it found. */
    twostate predicate DrainedInPart(q: seq<SchedulerRequest>)
      reads this, q
    {
      Part(requests, CanServe(workers), false) == Part(q, CanServe(workers), false) &&
      served + Part(requests, CanServe(workers), true) == old(served) + Part(q, CanServe(workers), true) &&
      (forall i :: 0 <= i < |requests| ==> requests[i] in q) &&
      forall r :: r in q ==>
        if r in requests then r.sent == old(r.sent)
        else Servable(workers, r.given) && Granted(workers, r.given, old(r.sent), r.sent)
    }

    twostate lemma DrainedInTheEnd(q: seq<SchedulerRequest>)
      requires DrainedInPart(q) && forall r :: r in requests ==> !Servable(workers, r.given)
      ensures Drained(q) && Quiet()
    {
      hide Servable, Dispatches, Granted;
      NonePasses(requests, CanServe(workers));
    }

    /** In plain terms: a request stays exactly if no worker is a candidate for it,
        and is then sent nothing; each of the others is sent one valid reply, which
        names a worker with room that it can reach, and no such worker is faster. */
    twostate lemma DrainedMeans(q: seq<SchedulerRequest>, r: SchedulerRequest) returns (id: MachineID)
      requires Drained(q) && r in q
      ensures r in requests <==> forall w :: w in workers ==> !Candidate(workers[w], r.given)
      ensures r in requests ==> r.sent == old(r.sent)
      ensures r !in requests ==>
                r in served && |r.sent| == |old(r.sent)| + 1 && old(r.sent) <= r.sent && id in workers &&
                var reply := r.sent[|old(r.sent)|];
                reply.Valid? && reply.id == workers[id].id && reply.host == workers[id].host &&
                reply.port == workers[id].port && reply.address in workers[id].addrs &&
                HasSpace(workers[id]) && Reachable(r.given, workers[id].addrs) &&
                forall w :: w in workers && HasSpace(workers[w]) && Reachable(r.given, workers[w].addrs) ==>
                  workers[w].speed <= workers[id].speed
    {
      hide Candidate, Dispatches, Part;
      PartMembers(q, CanServe(workers), false);
      PartMembers(q, CanServe(workers), true);
      id := "";
      if Servable(workers, r.given) {
        assert Granted(workers, r.given, old(r.sent), r.sent);
        var reply :| Dispatches(workers, r.given, reply) && r.sent == old(r.sent) + [reply];
        id := DispatchFacts(workers, r.given, reply);
      }
    }

    method ScheduleRequests()
      requires Valid()
      modifies `requests, `served, requests`sent, requests`addrs
      ensures Valid() && Quiet() && Drained(old(requests))
    {
      hide Servable, Dispatches, Part, Granted, Distinct, Valid, FirstAt, Drained, Quiet;
      ghost var all := requests;
      while |requests| > 0
        invariant Valid() && DrainedInPart(all)
        decreases |requests|
      {
        var found := ServeFirst();
        if found >= 0 {
          RemoveServed(found);
        } else {
          break;
        }
      }
      DrainedInTheEnd(all);
    }

    /** Removes the first queued request with the given ID; false is the error. */
    method Cancel(g: GUID) returns (ok: bool)
      requires Valid()
      modifies `requests, requests`active
      ensures Valid()
      ensures old(Quiet()) ==> Quiet()
      ensures ok <==> exists r :: r in old(requests) && r.guid == g
      ensures !ok ==> requests == old(requests) && forall r :: r in requests ==> r.active == old(r.active)
      ensures ok ==> exists i: nat ::
                i < |old(requests)| && old(requests)[i].guid == g &&
                (forall j :: 0 <= j < i ==> old(requests)[j].guid != g) &&
                requests == Without(old(requests), i) && !old(requests)[i].active &&
                forall r :: r in requests ==> r.active == old(r.active)
    {
      var found := -1;
      for idx := 0 to |requests|
        invariant found == -1
        invariant forall j :: 0 <= j < idx ==> requests[j].guid != g
      {
        if requests[idx].guid == g {
          found := idx;
          break;
        }
      }
      ok := found >= 0;
      if ok {
        WithoutMembers(requests, found);
        requests[found].active := false;
        requests := requests[..found] + requests[found + 1..];
        assert requests == Without(old(requests), found);
      }
    }

    /** Blends a completion report into a worker's speed; false is the error. */
    method Completed(id: MachineID, speed: real) returns (ok: bool)
      modifies `workers
      ensures ok <==> id in old(workers)
      ensures workers == Apply(old(workers), Report(id, speed))
      ensures old(Quiet()) && Stored(old(workers)) && speed >= 0.0 ==> Quiet() && Stored(workers)
    {
      var updated := AddReport(workers, id, speed);
      ok := updated.Some?;
      if ok {
        workers := updated.value;
      }
      if old(Quiet()) && Stored(old(workers)) && speed >= 0.0 {
        KeepsQuiet(old(workers), Report(id, speed));
      }
    }

    /** Adds a worker, replacing an entry with its ID outright. */
    method AddWorker(state: WorkerState)
      requires Valid()
      modifies `workers, `requests, `served, requests`sent, requests`addrs
      ensures Valid() && Quiet() && Drained(old(requests))
      ensures workers == old(workers)[state.id := state]
    {
      workers := workers[state.id := state];
      ScheduleRequests();
    }

    method UpdateWorker(update: WorkerState)
      requires Valid()
      modifies `workers, `requests, `served, requests`sent, requests`addrs
      ensures Valid() && Quiet() && Drained(old(requests))
      ensures workers == Apply(old(workers), Update(update))
    {
      workers := Merge(workers, update);
      ScheduleRequests();
    }

    method RemoveWorker(id: MachineID)
      modifies `workers
      ensures workers == Apply(old(workers), Remove(id))
      ensures old(Quiet()) ==> Quiet()
    {
      workers := workers - {id};
    }

    /** Reports cannot make a queued request servable. */
    lemma KeepsQuiet(before: Table, e: WorkerEvent)
      requires Stored(before) && Admissible(e) && !e.Update? && workers == Apply(before, e)
      requires forall r :: r in requests ==> !Servable(before, r.given)
      ensures Quiet() && Stored(workers)
    {
      ApplyKeepsStored(before, e);
      forall r | r in requests
        ensures !Servable(workers, r.given)
      {
        OnlyUpdatesHelp(before, e, r.given);
      }
    }
  }

  // ---------- The server's side of an update ----------

  class ServerState {
    const sch: FifoScheduler

    constructor ()
      ensures fresh(sch) && sch.Valid() && sch.Quiet() && sch.workers == map[] && sch.requests == []
    {
      sch := new FifoScheduler();
    }

    /** Stamps an update, sorts its addresses and hands it to the scheduler. */
    method UpdateWorker(u: WorkerState, now: int)
      requires sch.Valid()
      modifies sch`workers, sch`requests, sch`served, sch.requests`sent, sch.requests`addrs
      ensures sch.Valid() && sch.Quiet() && sch.Drained(old(sch.requests))
      ensures exists addrs ::
                IsSorting(u.addrs, addrs) &&
                sch.workers == Apply(old(sch.workers), Update(u.(addrs := addrs, updated := now)))
      ensures Stored(old(sch.workers)) && u.speed >= 0.0 ==> Stored(sch.workers)
    {
      var addrs := SortedList(u.addrs);
      var stored := u.(addrs := addrs, updated := now);
      sch.UpdateWorker(stored);
      if Stored(old(sch.workers)) && u.speed >= 0.0 {
        ApplyKeepsStored(old(sch.workers), Update(stored));
      }
    }
  }
}

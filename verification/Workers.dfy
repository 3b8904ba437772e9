/**
 Workers, replies and the choice of a worker (scheduler.go, server.go).
 */
module Workers {
  import opened Wrappers
  import opened Net
  import opened NetOrder
  import opened NetLists
  import opened Queues

  type MachineID = string

  const TWO63 := 0x8000_0000_0000_0000

  type Int64 = x: int | -TWO63 <= x < TWO63

  datatype WorkerState = WorkerState(
    id: MachineID, host: string, addrs: seq<IPNet>, port: int,
    capacity: Int64, load: Int64, updated: int, speed: real)

  /** The known workers, by the ID each of them reports. */
  type Table = map<MachineID, WorkerState>

  /** A worker response.  Only a valid one carries the fields of a worker. */
  datatype Reply =
    | Queued
    | NoWorkers
    | Valid(id: MachineID, host: string, address: IPNet, port: int)

  // ---------- Which workers can serve a client ----------

  /** The value a 64-bit integer keeps of x. */
  function Wrap64(x: int): Int64 {
    (x + TWO63) % (2 * TWO63) - TWO63
  }

  predicate HasSpace(w: WorkerState) {
    Wrap64(w.capacity - w.load) > 0
  }

  /** The subtraction in HasSpace compares capacity and load exactly when the
      difference fits 64 bits. */
  lemma HasSpaceIffDifferenceFits(w: WorkerState)
    ensures (HasSpace(w) <==> w.load < w.capacity) <==> -TWO63 <= w.capacity - w.load < TWO63
  {
  }

  /** A worker that can be chosen for a client on the given networks.  The bound
      on the speed is the initial value of the search for the fastest one. */
  ghost predicate Candidate(w: WorkerState, nets: seq<IPNet>) {
    HasSpace(w) && Reachable(nets, w.addrs) && w.speed > -1.0
  }

  ghost predicate Servable(workers: Table, nets: seq<IPNet>) {
    exists id :: id in workers && Candidate(workers[id], nets)
  }

  ghost predicate Fastest(workers: Table, nets: seq<IPNet>, id: MachineID) {
    id in workers && Candidate(workers[id], nets) &&
    forall other :: other in workers && Candidate(workers[other], nets) ==> workers[other].speed <= workers[id].speed
  }

  /** Every field of the reply comes from one worker w; the address is the
      first match against the client's networks as sorted. */
  ghost predicate Describes(reply: Reply, w: WorkerState, sorted: seq<IPNet>) {
    var address := Match(sorted, w.addrs);
    address.Some? && reply == Valid(w.id, w.host, address.value, w.port)
  }

  /** A reply the search may give after sorting the client's networks in one way. */
  ghost predicate Answers(workers: Table, nets: seq<IPNet>, sorted: seq<IPNet>, reply: Reply) {
    exists id :: Fastest(workers, nets, id) && Describes(reply, workers[id], sorted)
  }

  /** The reply may be given to a client on the given networks. */
  ghost predicate Dispatches(workers: Table, nets: seq<IPNet>, reply: Reply) {
    exists id, sorted ::
      Fastest(workers, nets, id) && IsSorting(nets, sorted) && Describes(reply, workers[id], sorted)
  }

  // ---------- The search ----------

  /** The speed to beat: that of the worker chosen so far, or the initial one. */
  function ToBeat(workers: Table, chosen: Option<MachineID>): real
    requires chosen.Some? ==> chosen.value in workers
  {
    if chosen.Some? then workers[chosen.value].speed else -1.0
  }

  /** One round of the search: the next worker is chosen instead if it has room,
      an address matches and it is faster. */
  function Better(workers: Table, sorted: seq<IPNet>, chosen: Option<MachineID>, id: MachineID): Option<MachineID>
    requires id in workers && (chosen.Some? ==> chosen.value in workers)
  {
    var w := workers[id];
    if HasSpace(w) && Match(sorted, w.addrs).Some? && ToBeat(workers, chosen) < w.speed then Some(id) else chosen
  }

  /** The worker chosen after walking the map in the given order. */
  function Walk(workers: Table, sorted: seq<IPNet>, order: seq<MachineID>): (chosen: Option<MachineID>)
    requires forall id :: id in order ==> id in workers
    ensures chosen.Some? ==> chosen.value in order && Match(sorted, workers[chosen.value].addrs).Some?
  {
    if |order| == 0 then None
    else
      var n := |order| - 1;
      Better(workers, sorted, Walk(workers, sorted, order[..n]), order[n])
  }

  /** An order in which the map may be walked. */
  ghost predicate IsOrder(workers: Table, order: seq<MachineID>) {
    Distinct(order) && forall id :: id in order <==> id in workers
  }

  /** The reply of a whole search in that order; None is the error. */
  function SearchInOrder(workers: Table, sorted: seq<IPNet>, order: seq<MachineID>): Option<Reply>
    requires forall id :: id in order ==> id in workers
  {
    var chosen := Walk(workers, sorted, order);
    if chosen.None? then None
    else
      var w := workers[chosen.value];
      Some(Valid(w.id, w.host, Match(sorted, w.addrs).value, w.port))
  }

  lemma {:induction false} OrderOf(ids: set<MachineID>) returns (order: seq<MachineID>)
    ensures Distinct(order) && forall id :: id in order <==> id in ids
    decreases ids
  {
    order := [];
    if ids != {} {
      var id :| id in ids;
      var rest := OrderOf(ids - {id});
      order := [id] + rest;
    }
  }

  /** For sorted networks, candidates are the workers that one round accepts. */
  lemma CandidatesMatch(nets: seq<IPNet>, sorted: seq<IPNet>, w: WorkerState)
    requires IsSorting(nets, sorted)
    ensures Candidate(w, nets) <==> HasSpace(w) && Match(sorted, w.addrs).Some? && w.speed > -1.0
  {
    hide Sorted, HasSpace;
    ReachableIgnoresOrder(nets, sorted, w.addrs, w.addrs);
    var i, j := MatchIsFirst(sorted, w.addrs);
  }

  /** What a walk chooses is a fastest candidate of those it met. */
  lemma {:induction false} WalkFinds(workers: Table, nets: seq<IPNet>, sorted: seq<IPNet>, order: seq<MachineID>)
    requires IsSorting(nets, sorted) && forall id :: id in order ==> id in workers
    ensures var chosen := Walk(workers, sorted, order);
            (chosen.Some? ==> Candidate(workers[chosen.value], nets)) &&
            forall id :: id in order && Candidate(workers[id], nets) ==>
              chosen.Some? && workers[id].speed <= workers[chosen.value].speed
    decreases |order|
  {
    hide Candidate, IsSorting, HasSpace, Match;
    if |order| > 0 {
      var n := |order| - 1;
      WalkFinds(workers, nets, sorted, order[..n]);
      CandidatesMatch(nets, sorted, workers[order[n]]);
      var chosen := Walk(workers, sorted, order[..n]);
      if chosen.Some? {
        CandidatesMatch(nets, sorted, workers[chosen.value]);
      }
      assert forall id :: id in order <==> id in order[..n] || id == order[n];
    }
  }

  /** A whole walk returns a fastest candidate, or none if there is no candidate. */
  lemma WalkIsFastest(workers: Table, nets: seq<IPNet>, sorted: seq<IPNet>, order: seq<MachineID>)
    requires IsSorting(nets, sorted) && IsOrder(workers, order)
    ensures var chosen := Walk(workers, sorted, order);
            if chosen.Some? then Fastest(workers, nets, chosen.value) else !Servable(workers, nets)
  {
    hide Candidate, IsSorting;
    WalkFinds(workers, nets, sorted, order);
  }

  /** Of several fastest workers a walk returns the one it meets first. */
  lemma {:induction false} WalkReturnsFirstFastest(workers: Table, nets: seq<IPNet>, sorted: seq<IPNet>,
                                                   order: seq<MachineID>, p: nat)
    requires IsSorting(nets, sorted) && forall id :: id in order ==> id in workers
    requires p < |order| && Fastest(workers, nets, order[p])
    requires forall q :: 0 <= q < p ==> !Fastest(workers, nets, order[q])
    ensures Walk(workers, sorted, order) == Some(order[p])
    decreases |order|
  {
    hide Candidate, IsSorting, HasSpace, Match;
    var n := |order| - 1;
    CandidatesMatch(nets, sorted, workers[order[p]]);
    CandidatesMatch(nets, sorted, workers[order[n]]);
    if p < n {
      WalkReturnsFirstFastest(workers, nets, sorted, order[..n], p);
    } else {
      WalkFinds(workers, nets, sorted, order[..n]);
    }
  }

  /** Every fastest worker is chosen by some walk: the one that meets it first. */
  lemma FastestIsChosen(workers: Table, nets: seq<IPNet>, sorted: seq<IPNet>, id: MachineID)
    returns (order: seq<MachineID>)
    requires IsSorting(nets, sorted) && Fastest(workers, nets, id)
    ensures IsOrder(workers, order) && Walk(workers, sorted, order) == Some(id)
  {
    hide Candidate, IsSorting;
    var rest := OrderOf(workers.Keys - {id});
    order := [id] + rest;
    WalkReturnsFirstFastest(workers, nets, sorted, order, 0);
  }

  /** Searches the workers in an arbitrary order; None is the error.  Returns the
      client's networks as the search leaves them: sorted. */
  method FindFreeWorker(workers: Table, nets: seq<IPNet>) returns (reply: Option<Reply>, sorted: seq<IPNet>)
    ensures IsSorting(nets, sorted)
    ensures exists order :: IsOrder(workers, order) && reply == SearchInOrder(workers, sorted, order)
    ensures reply.Some? <==> Servable(workers, nets)
    ensures reply.Some? ==> Answers(workers, nets, sorted, reply.value)
    ensures reply.Some? ==> Dispatches(workers, nets, reply.value)
  {
    hide Candidate, Sorted, HasSpace, Match;
    ghost var order: seq<MachineID>;
    if |nets| == 0 {
      order := OrderOf(workers.Keys);
      NoNetworksNoService(workers);
      WalkIsFastest(workers, nets, nets, order);
      return None, nets;
    }
    sorted := SortedList(nets);

    var worker: Option<WorkerState> := None;
    var address: Option<IPNet> := None;
    var speed := -1.0;
    var left := workers.Keys;
    order := [];
    while left != {}
      invariant left <= workers.Keys && Distinct(order)
      invariant forall id :: id in order <==> id in workers && id !in left
      invariant var chosen := Walk(workers, sorted, order);
                speed == ToBeat(workers, chosen) &&
                if chosen.None? then worker == None && address == None
                else worker == Some(workers[chosen.value]) && address == Match(sorted, workers[chosen.value].addrs)
      decreases left
    {
      var id :| id in left;
      left := left - {id};
      ghost var before := order;
      order := order + [id];
      assert order[..|before|] == before;
      var w := workers[id];
      if HasSpace(w) {
        var found := GetMatchingIP(sorted, w.addrs);
        if found.Some? && speed < w.speed {
          worker, address, speed := Some(w), found, w.speed;
        }
      }
    }

    WalkIsFastest(workers, nets, sorted, order);
    if worker.Some? {
      reply := Some(Valid(worker.value.id, worker.value.host, address.value, worker.value.port));
      ghost var best := Walk(workers, sorted, order).value;
      assert Fastest(workers, nets, best) && Describes(reply.value, workers[best], sorted);
    } else {
      reply := None;
    }
    assert IsOrder(workers, order) && reply == SearchInOrder(workers, sorted, order);
  }

  lemma NoNetworksNoService(workers: Table)
    ensures IsSorting([], []) && !Servable(workers, [])
  {
  }

  /** Reordering the client's networks changes neither who can serve it nor
      which replies it may get. */
  lemma ChoiceIgnoresOrder(workers: Table, nets: seq<IPNet>, nets': seq<IPNet>)
    requires multiset(nets) == multiset(nets')
    ensures forall w :: Candidate(w, nets) <==> Candidate(w, nets')
    ensures Servable(workers, nets) <==> Servable(workers, nets')
    ensures forall reply :: Dispatches(workers, nets, reply) ==> Dispatches(workers, nets', reply)
  {
    SameElements(nets, nets');
    forall reply | Dispatches(workers, nets, reply)
      ensures Dispatches(workers, nets', reply)
    {
      var id, sorted :|
        Fastest(workers, nets, id) && IsSorting(nets, sorted) && Describes(reply, workers[id], sorted);
      assert Fastest(workers, nets', id) && IsSorting(nets', sorted);
    }
  }

  // ---------- What a dispatched reply promises ----------

  /** The worker named in a reply was in the table with room for a job, its
      address lies in one of the client's networks, and no worker with room that
      the client can reach is faster. */
  lemma DispatchFacts(workers: Table, nets: seq<IPNet>, reply: Reply) returns (id: MachineID)
    requires Dispatches(workers, nets, reply)
    ensures reply.Valid? && id in workers && HasSpace(workers[id])
    ensures reply.id == workers[id].id && reply.host == workers[id].host && reply.port == workers[id].port
    ensures reply.address in workers[id].addrs
    ensures exists net :: net in nets && Contains(net, reply.address.ip)
    ensures Servable(workers, nets)
    ensures Reachable(nets, workers[id].addrs) && workers[id].speed > -1.0
    ensures forall other :: other in workers && HasSpace(workers[other]) && Reachable(nets, workers[other].addrs) ==>
              workers[other].speed <= workers[id].speed
  {
    var sorted;
    id, sorted :| Fastest(workers, nets, id) && IsSorting(nets, sorted) && Describes(reply, workers[id], sorted);
    var i, j := MatchIsFirst(sorted, workers[id].addrs);
    SameElements(nets, sorted);
    assert sorted[i] in nets;
  }

  lemma {:induction false} FastestAmong(workers: Table, nets: seq<IPNet>, ids: set<MachineID>) returns (best: MachineID)
    requires ids <= workers.Keys && exists id :: id in ids && Candidate(workers[id], nets)
    ensures best in ids && Candidate(workers[best], nets)
    ensures forall id :: id in ids && Candidate(workers[id], nets) ==> workers[id].speed <= workers[best].speed
    decreases ids
  {
    hide Candidate;
    var first :| first in ids && Candidate(workers[first], nets);
    var rest := ids - {first};
    if exists id :: id in rest && Candidate(workers[id], nets) {
      best := FastestAmong(workers, nets, rest);
      if workers[best].speed < workers[first].speed {
        best := first;
      }
    } else {
      best := first;
    }
  }

  /** Whichever sorting the search starts from, a fastest worker can answer. */
  lemma FastestAnswers(workers: Table, nets: seq<IPNet>, sorted: seq<IPNet>, id: MachineID) returns (reply: Reply)
    requires Fastest(workers, nets, id) && IsSorting(nets, sorted)
    ensures Describes(reply, workers[id], sorted)
    ensures Answers(workers, nets, sorted, reply) && Dispatches(workers, nets, reply)
  {
    hide Sorted;
    var w := workers[id];
    ReachableIgnoresOrder(nets, sorted, w.addrs, w.addrs);
    var i, j := MatchIsFirst(sorted, w.addrs);
    reply := Valid(w.id, w.host, Match(sorted, w.addrs).value, w.port);
    assert Describes(reply, workers[id], sorted);
  }

  /** A client that can be served has a reply to be served with. */
  lemma ReplyExists(workers: Table, nets: seq<IPNet>) returns (reply: Reply)
    requires Servable(workers, nets)
    ensures Dispatches(workers, nets, reply)
  {
    var id := FastestAmong(workers, nets, workers.Keys);
    var sorted := SortingExists(nets);
    reply := FastestAnswers(workers, nets, sorted, id);
  }

  /** The table holds workers as the server stores them. */
  ghost predicate Stored(workers: Table) {
    forall id :: id in workers ==> workers[id].id == id && Sorted(workers[id].addrs) && workers[id].speed >= 0.0
  }

  /** No two workers are fastest for the client. */
  ghost predicate OneFastest(workers: Table, nets: seq<IPNet>) {
    forall id, id' :: Fastest(workers, nets, id) && Fastest(workers, nets, id') ==> id == id'
  }

  /** The order of the map does not show in the chosen worker if and only if no
      two workers are fastest. */
  lemma MapOrderIrrelevantIff(workers: Table, nets: seq<IPNet>, sorted: seq<IPNet>)
    requires IsSorting(nets, sorted)
    ensures OneFastest(workers, nets) <==>
            forall o, o' :: IsOrder(workers, o) && IsOrder(workers, o') ==>
              Walk(workers, sorted, o) == Walk(workers, sorted, o')
  {
    hide Fastest, IsSorting, Walk;
    if OneFastest(workers, nets) {
      forall o, o' | IsOrder(workers, o) && IsOrder(workers, o')
        ensures Walk(workers, sorted, o) == Walk(workers, sorted, o')
      {
        WalkIsFastest(workers, nets, sorted, o);
        WalkIsFastest(workers, nets, sorted, o');
        ServableHasFastest(workers, nets);
      }
    } else {
      var id, id' :| Fastest(workers, nets, id) && Fastest(workers, nets, id') && id != id';
      var o := FastestIsChosen(workers, nets, sorted, id);
      var o' := FastestIsChosen(workers, nets, sorted, id');
    }
  }

  lemma ServableHasFastest(workers: Table, nets: seq<IPNet>)
    ensures Servable(workers, nets) <==> exists id :: Fastest(workers, nets, id)
  {
    hide Candidate;
    if Servable(workers, nets) {
      var id := FastestAmong(workers, nets, workers.Keys);
      assert Fastest(workers, nets, id);
    }
  }

  /** The replies a client may get are exactly those that the search gives for
      some sorting of its networks and some order of the map. */
  lemma DispatchesIffSearched(workers: Table, nets: seq<IPNet>, reply: Reply)
    ensures Dispatches(workers, nets, reply) <==>
            exists o, s :: IsOrder(workers, o) && IsSorting(nets, s) && SearchInOrder(workers, s, o) == Some(reply)
  {
    hide Candidate, IsSorting, Walk;
    if Dispatches(workers, nets, reply) {
      var id, s :| Fastest(workers, nets, id) && IsSorting(nets, s) && Describes(reply, workers[id], s);
      var o := FastestIsChosen(workers, nets, s, id);
      assert SearchInOrder(workers, s, o) == Some(reply);
    }
    if o, s :| IsOrder(workers, o) && IsSorting(nets, s) && SearchInOrder(workers, s, o) == Some(reply) {
      WalkIsFastest(workers, nets, s, o);
      var id := Walk(workers, s, o).value;
      assert Fastest(workers, nets, id) && Describes(reply, workers[id], s);
    }
  }

  /** Neither the order of the map nor the sorting of the client's networks shows
      in the outcome of the search. */
  ghost predicate OneOutcome(workers: Table, nets: seq<IPNet>) {
    forall o, o', s, s' ::
      IsOrder(workers, o) && IsOrder(workers, o') && IsSorting(nets, s) && IsSorting(nets, s') ==>
        SearchInOrder(workers, s, o) == SearchInOrder(workers, s', o')
  }

  /** That is so if and only if no two workers are fastest and the least of the
      client's networks that contain an address of the fastest one agree on the
      first such address. */
  lemma DispatchIsUniqueIff(workers: Table, nets: seq<IPNet>)
    requires forall id :: id in workers ==> workers[id].id == id
    ensures OneOutcome(workers, nets) <==>
            OneFastest(workers, nets) &&
            forall id :: Fastest(workers, nets, id) ==> LeastNetsAgree(nets, workers[id].addrs)
  {
    hide Candidate, IsSorting, Match, LeastNetsAgree, Walk;
    if OneOutcome(workers, nets) {
      forall id, id', s, s' |
        Fastest(workers, nets, id) && Fastest(workers, nets, id') && IsSorting(nets, s) && IsSorting(nets, s')
        ensures id == id' && Match(s, workers[id].addrs) == Match(s', workers[id].addrs)
      {
        var o := FastestIsChosen(workers, nets, s, id);
        var o' := FastestIsChosen(workers, nets, s', id');
        assert SearchInOrder(workers, s, o) == SearchInOrder(workers, s', o');
      }
      var s := SortingExists(nets);
      forall id | Fastest(workers, nets, id)
        ensures LeastNetsAgree(nets, workers[id].addrs)
      {
        SortingIrrelevantIff(nets, workers[id].addrs);
      }
    } else {
      var o, o', s, s' :|
        IsOrder(workers, o) && IsOrder(workers, o') && IsSorting(nets, s) && IsSorting(nets, s') &&
        SearchInOrder(workers, s, o) != SearchInOrder(workers, s', o');
      WalkIsFastest(workers, nets, s, o);
      WalkIsFastest(workers, nets, s', o');
      ServableHasFastest(workers, nets);
      var chosen := Walk(workers, s, o);
      if chosen.Some? {
        SortingIrrelevantIff(nets, workers[chosen.value].addrs);
      }
    }
  }

  const TIED := WorkerState("v", "v", [IPNet(LOW, [])], 1, 1, 0, 0, 0.0)

  /** Two equally fast workers: the order of the map decides who is handed out. */
  lemma TiedWorkersDependOnTheMap() returns (workers: Table, nets: seq<IPNet>, o: seq<MachineID>, o': seq<MachineID>)
    ensures Stored(workers) && IsSorting(nets, nets) && IsOrder(workers, o) && IsOrder(workers, o')
    ensures SearchInOrder(workers, nets, o) != SearchInOrder(workers, nets, o')
  {
    hide Contains, Less, Walk;
    workers, nets := map["v" := TIED, "w" := TIED.(id := "w")], [WIDE];
    assert WIDE in nets && TIED.addrs[0] in TIED.addrs && Contains(WIDE, LOW) by { WideContainsMore(); }
    assert HasSpace(TIED) && HasSpace(TIED.(id := "w"));
    assert Fastest(workers, nets, "v") && Fastest(workers, nets, "w");
    o := FastestIsChosen(workers, nets, nets, "v");
    o' := FastestIsChosen(workers, nets, nets, "w");
  }

  /** Distinct network addresses and one fastest worker suffice, for any table. */
  lemma DispatchIgnoresSorting(workers: Table, nets: seq<IPNet>, r: Reply, r': Reply)
    requires OneFastest(workers, nets) && DistinctIPs(nets)
    requires Dispatches(workers, nets, r) && Dispatches(workers, nets, r')
    ensures r == r'
  {
    hide Candidate, Sorted, Match;
    var i, s :| Fastest(workers, nets, i) && IsSorting(nets, s) && Describes(r, workers[i], s);
    var i', s' :| Fastest(workers, nets, i') && IsSorting(nets, s') && Describes(r', workers[i'], s');
    SortingIsUnique(nets, s, s');
  }

  /** For stored workers, the address handed out is the most private address of
      the chosen worker inside the most private network of the client that
      contains any of that worker's addresses. */
  lemma DispatchedAddressIsBest(workers: Table, nets: seq<IPNet>, reply: Reply) returns (net: IPNet)
    requires Stored(workers) && Dispatches(workers, nets, reply)
    ensures reply.id in workers && Fastest(workers, nets, reply.id)
    ensures IsBestMatch(nets, workers[reply.id].addrs, net, reply.address)
  {
    var id, sorted :| Fastest(workers, nets, id) && IsSorting(nets, sorted) && Describes(reply, workers[id], sorted);
    ReachableIgnoresOrder(nets, sorted, workers[id].addrs, workers[id].addrs);
    net := SortedMatchIsBest(sorted, workers[id].addrs);
    SameElements(nets, sorted);
  }

  /** For stored workers, a client is served exactly when some worker has space
      and an address it can reach. */
  lemma ServableWhenStored(workers: Table, nets: seq<IPNet>)
    requires Stored(workers)
    ensures Servable(workers, nets) <==>
            exists id :: id in workers && HasSpace(workers[id]) && Reachable(nets, workers[id].addrs)
  {
  }
}

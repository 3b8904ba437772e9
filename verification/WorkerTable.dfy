/**
 The worker table as updates, completion reports and removals change it, and
 the smoothed speed it keeps for each worker (scheduler.go).
 */
module WorkerTable {
  import opened Wrappers
  import opened Net
  import opened Workers

  // ---------- The table operations ----------

  /** Stores the update; a worker already known keeps its speed. */
  function Merge(workers: Table, update: WorkerState): Table {
    var speed := if update.id in workers then workers[update.id].speed else update.speed;
    workers[update.id := update.(speed := speed)]
  }

  /** The smoothing rule: a zero speed is replaced outright. */
  function Blend(speed: real, report: real): real {
    if speed == 0.0 then report else speed * 0.9 + report * 0.1
  }

  /** Blends a report into the speed of a known worker; None is the error. */
  function AddReport(workers: Table, id: MachineID, report: real): Option<Table> {
    if id !in workers then None
    else Some(workers[id := workers[id].(speed := Blend(workers[id].speed, report))])
  }

  // ---------- Histories ----------

  /** What the server does to the table: a worker's update, a completion report
      with its compile speed, or the removal of a worker. */
  datatype WorkerEvent =
    | Update(state: WorkerState)
    | Report(id: MachineID, speed: real)
    | Remove(id: MachineID)

  function Apply(workers: Table, e: WorkerEvent): Table {
    match e
    case Update(state) => Merge(workers, state)
    case Report(id, speed) => (match AddReport(workers, id, speed) case Some(t) => t case None => workers)
    case Remove(id) => workers - {id}
  }

  function Replay(log: seq<WorkerEvent>): Table {
    if |log| == 0 then map[] else Apply(Replay(log[..|log| - 1]), log[|log| - 1])
  }

  /** The events the model admits: sorted addresses, as the server stores them,
      and speeds that are not negative. */
  predicate Admissible(e: WorkerEvent) {
    match e
    case Update(state) => Sorted(state.addrs) && state.speed >= 0.0
    case Report(_, speed) => speed >= 0.0
    case Remove(_) => true
  }

  lemma ApplyKeepsStored(workers: Table, e: WorkerEvent)
    requires Stored(workers) && Admissible(e)
    ensures Stored(Apply(workers, e))
  {
  }

  /** A report or a removal lets nobody be served who could not be before. */
  lemma OnlyUpdatesHelp(workers: Table, e: WorkerEvent, nets: seq<IPNet>)
    requires Stored(workers) && Admissible(e) && !e.Update?
    ensures Servable(Apply(workers, e), nets) ==> Servable(workers, nets)
  {
    if Servable(Apply(workers, e), nets) {
      var id :| id in Apply(workers, e) && Candidate(Apply(workers, e)[id], nets);
      assert Candidate(workers[id], nets);
    }
  }

  // ---------- The speed of a worker, from the history alone ----------

  predicate IsUpdate(e: WorkerEvent, id: MachineID) {
    e.Update? && e.state.id == id
  }

  ghost predicate RemovedWithin(log: seq<WorkerEvent>, id: MachineID, from: nat, to: nat)
    requires to <= |log|
  {
    exists m :: from <= m < to && log[m] == Remove(id)
  }

  /** The worker last joined at position j: j updates it, no later event removes
      it, and every update before j was followed by a removal before j. */
  ghost predicate JoinedAt(log: seq<WorkerEvent>, id: MachineID, j: nat) {
    j < |log| && IsUpdate(log[j], id) && !RemovedWithin(log, id, j, |log|) &&
    forall k :: 0 <= k < j && IsUpdate(log[k], id) ==> RemovedWithin(log, id, k, j)
  }

  /** No update of the worker is left standing: each was followed by a removal. */
  ghost predicate Gone(log: seq<WorkerEvent>, id: MachineID) {
    forall k :: 0 <= k < |log| && IsUpdate(log[k], id) ==> RemovedWithin(log, id, k, |log|)
  }

  /** The position of the latest update of the worker. */
  ghost predicate LastUpdatedAt(log: seq<WorkerEvent>, id: MachineID, k: nat) {
    k < |log| && IsUpdate(log[k], id) && forall m :: k < m < |log| ==> !IsUpdate(log[m], id)
  }

  /** The speeds reported for one worker from a position on, in order. */
  function ReportsFrom(log: seq<WorkerEvent>, id: MachineID, from: nat): seq<real> {
    if |log| <= from then [] else
      var e := log[|log| - 1];
      ReportsFrom(log[..|log| - 1], id, from) + (if e.Report? && e.id == id then [e.speed] else [])
  }

  function FoldSpeed(start: real, reports: seq<real>): real {
    if |reports| == 0 then start
    else Blend(FoldSpeed(start, reports[..|reports| - 1]), reports[|reports| - 1])
  }

  /** What a worker's entry must be, given where it joined and was last updated. */
  ghost predicate EntryIs(log: seq<WorkerEvent>, id: MachineID, entry: WorkerState, j: nat, k: nat) {
    JoinedAt(log, id, j) && LastUpdatedAt(log, id, k) && j <= k &&
    entry == log[k].state.(speed := FoldSpeed(log[j].state.speed, ReportsFrom(log, id, j + 1)))
  }

  /** One more event either leaves the joining position alone or starts afresh. */
  lemma JoinSteps(log: seq<WorkerEvent>, id: MachineID, e: WorkerEvent)
    ensures e == Remove(id) ==> Gone(log + [e], id)
    ensures e != Remove(id) && !IsUpdate(e, id) && Gone(log, id) ==> Gone(log + [e], id)
    ensures IsUpdate(e, id) && Gone(log, id) ==> JoinedAt(log + [e], id, |log|)
    ensures forall j: nat :: e != Remove(id) && JoinedAt(log, id, j) ==> JoinedAt(log + [e], id, j)
  {
    var after := log + [e];
    assert after[|log|] == e;
    forall k, to | 0 <= k <= to <= |log| && RemovedWithin(log, id, k, to)
      ensures RemovedWithin(after, id, k, to)
    {
      var m :| k <= m < to && log[m] == Remove(id);
      assert after[m] == Remove(id);
    }
    forall k | 0 <= k < |log| && RemovedWithin(log, id, k, |log|)
      ensures RemovedWithin(after, id, k, |after|)
    {
      var m :| k <= m < |log| && log[m] == Remove(id);
      assert after[m] == Remove(id);
    }
  }

  /** Whatever the order of updates, reports and removals: a worker is in the
      table exactly when it joined and was not removed since.  Its speed is the
      fold of the reports received since it joined over the speed it joined
      with, and everything else in its entry is what its latest update said. */
  lemma {:induction false} TableFollowsHistory(log: seq<WorkerEvent>, id: MachineID) returns (j: nat, k: nat)
    ensures id !in Replay(log) ==> Gone(log, id)
    ensures id in Replay(log) ==> EntryIs(log, id, Replay(log)[id], j, k)
  {
    j, k := 0, 0;
    if |log| == 0 {
      assert Gone(log, id);
    }
    hide JoinedAt, Gone;
    if |log| > 0 {
      var n := |log| - 1;
      var before, e := log[..n], log[n];
      j, k := TableFollowsHistory(before, id);
      assert log == before + [e];
      JoinSteps(before, id, e);
      if IsUpdate(e, id) {
        k := n;
        if id !in Replay(before) {
          j := n;
        }
      }
      if id in Replay(log) && j < n {
        var reports := ReportsFrom(before, id, j + 1);
        assert ReportsFrom(log, id, j + 1) == if e.Report? && e.id == id then reports + [e.speed] else reports;
        if e.Report? && e.id == id {
          assert (reports + [e.speed])[..|reports|] == reports;
        }
      }
    }
  }

  /** The joining position is determined by the history. */
  lemma JoinIsUnique(log: seq<WorkerEvent>, id: MachineID, j: nat, j': nat)
    requires JoinedAt(log, id, j) && JoinedAt(log, id, j')
    ensures j == j'
  {
  }

  /** A worker is known exactly when the history holds a joining position. */
  lemma KnownIffJoined(log: seq<WorkerEvent>, id: MachineID)
    ensures id in Replay(log) <==> exists j: nat :: JoinedAt(log, id, j)
  {
    var j, k := TableFollowsHistory(log, id);
  }

  // ---------- Bounds on the smoothed speed ----------

  /** Reports and a start within [0, hi] keep the speed within [0, hi]. */
  lemma {:induction false} SpeedStaysInBounds(start: real, reports: seq<real>, hi: real)
    requires 0.0 <= start <= hi
    requires forall i :: 0 <= i < |reports| ==> 0.0 <= reports[i] <= hi
    ensures 0.0 <= FoldSpeed(start, reports) <= hi
  {
    if |reports| > 0 {
      SpeedStaysInBounds(start, reports[..|reports| - 1], hi);
    }
  }

  function Pow(x: real, n: nat): real {
    if n == 0 then 1.0 else x * Pow(x, n - 1)
  }

  /** After n equal reports the distance to the reported speed has shrunk by
      exactly 0.9 to the n. */
  lemma {:induction false} GapShrinks(start: real, v: real, n: nat)
    requires start > 0.0 && v >= 0.0
    ensures FoldSpeed(start, seq(n, i => v)) > 0.0
    ensures FoldSpeed(start, seq(n, i => v)) - v == Pow(0.9, n) * (start - v)
  {
    if n > 0 {
      GapShrinks(start, v, n - 1);
      assert seq(n, i => v)[..n - 1] == seq(n - 1, i => v);
      var before := FoldSpeed(start, seq(n - 1, i => v));
      assert FoldSpeed(start, seq(n, i => v)) == Blend(before, v);
      assert Pow(0.9, n) * (start - v) == 0.9 * (Pow(0.9, n - 1) * (start - v));
    }
  }

  lemma BlendZero(report: real)
    ensures Blend(0.0, report) == report
  {
  }

  /** A worker that joined without a speed takes on the first report at once. */
  lemma {:induction false} FirstReportReplacesZero(reports: seq<real>)
    requires |reports| > 0
    ensures FoldSpeed(0.0, reports) == FoldSpeed(reports[0], reports[1..])
    decreases |reports|
  {
    hide Blend;
    assert Blend(0.0, reports[0]) == reports[0] by { BlendZero(reports[0]); }
    if |reports| > 1 {
      var n := |reports| - 1;
      FirstReportReplacesZero(reports[..n]);
      assert reports[..n][1..] == reports[1..][..n - 1];
    } else {
      assert reports[..0] == [];
    }
  }
}

/**
 The publisher of updates to monitors (observer.go).
 */
module Observer {
  import opened Wrappers

  type Host = string

  /** The identity of a monitor's channel. */
  type Channel = nat

  /** What the publisher's loop takes from its three channels.  A message comes
      with the hosts whose channel has a receiver waiting at that moment.  When
      the updates channel is closed the loop sends a nil message and ends. */
  datatype Input<M> =
    | AddObs(host: Host, ch: Channel)
    | RemoveObs(host: Host)
    | Publish(msg: M, ready: set<Host>)
    | Close(ready: set<Host>)

  /** A message that went out: at which input, to whom, and nil as None. */
  datatype Send<M> = Send(at: nat, host: Host, ch: Channel, msg: Option<M>)

  /** The input changes the registration of the host. */
  predicate Touches<M>(input: Input<M>, host: Host) {
    (input.AddObs? || input.RemoveObs?) && input.host == host
  }

  /** The host was registered with the channel at position j and its registration
      was not touched from there up to position i. */
  predicate RegisteredSince<M(==)>(inputs: seq<Input<M>>, j: nat, i: nat, host: Host, ch: Channel)
    requires i <= |inputs|
  {
    j < i && inputs[j].AddObs? && inputs[j].host == host && inputs[j].ch == ch &&
    forall k :: j < k < i ==> !Touches(inputs[k], host)
  }

  ghost predicate Registered<M>(inputs: seq<Input<M>>, i: nat, host: Host, ch: Channel)
    requires i <= |inputs|
  {
    exists j: nat :: RegisteredSince(inputs, j, i, host, ch)
  }

  /** Input i hands the host's monitor a message on the channel. */
  ghost predicate Reaches<M>(inputs: seq<Input<M>>, i: nat, host: Host, ch: Channel)
    requires i < |inputs|
  {
    (inputs[i].Publish? || inputs[i].Close?) && host in inputs[i].ready && Registered(inputs, i, host, ch) &&
    forall k :: 0 <= k < i ==> !inputs[k].Close?
  }

  function MessageAt<M>(inputs: seq<Input<M>>, i: nat): Option<M>
    requires i < |inputs|
  {
    if inputs[i].Publish? then Some(inputs[i].msg) else None
  }

  /** Everything sent for the inputs before n: what reaches a registered monitor
      that is ready, in order, and once per input and host. */
  ghost predicate IsPublication<M>(inputs: seq<Input<M>>, n: nat, sends: seq<Send<M>>)
    requires n <= |inputs|
  {
    (forall p :: 0 <= p < |sends| ==>
       sends[p].at < n && Reaches(inputs, sends[p].at, sends[p].host, sends[p].ch) &&
       sends[p].msg == MessageAt(inputs, sends[p].at)) &&
    (forall p, q :: 0 <= p < q < |sends| ==>
       sends[p].at <= sends[q].at && (sends[p].at == sends[q].at ==> sends[p].host != sends[q].host))
  }

  /** Nothing that reaches a monitor before n is missing. */
  ghost predicate IsComplete<M>(inputs: seq<Input<M>>, n: nat, sends: seq<Send<M>>)
    requires n <= |inputs|
  {
    forall i: nat, host, ch :: i < n && Reaches(inputs, i, host, ch) ==>
      Send(i, host, ch, MessageAt(inputs, i)) in sends
  }

  predicate Knows(obs: map<Host, Channel>, host: Host, ch: Channel) {
    host in obs && obs[host] == ch
  }

  /** The observers known before input i. */
  ghost predicate IsTable<M>(inputs: seq<Input<M>>, i: nat, obs: map<Host, Channel>)
    requires i <= |inputs|
  {
    forall host, ch :: Knows(obs, host, ch) <==> Registered(inputs, i, host, ch)
  }

  lemma RegisteredStep<M>(inputs: seq<Input<M>>, i: nat, host: Host, ch: Channel)
    requires i < |inputs|
    ensures Registered(inputs, i + 1, host, ch) <==>
            if Touches(inputs[i], host) then inputs[i] == AddObs(host, ch) else Registered(inputs, i, host, ch)
  {
    var later := i + 1;
    if Touches(inputs[i], host) {
      if inputs[i] == AddObs(host, ch) {
        assert RegisteredSince(inputs, i, later, host, ch);
      }
    } else {
      if j: nat :| RegisteredSince(inputs, j, i, host, ch) {
        assert RegisteredSince(inputs, j, later, host, ch);
      }
      if j: nat :| RegisteredSince(inputs, j, later, host, ch) {
        assert RegisteredSince(inputs, j, i, host, ch);
      }
    }
  }

  /** The observers known after one more input. */
  function Updated<M>(obs: map<Host, Channel>, input: Input<M>): map<Host, Channel> {
    match input
    case AddObs(host, ch) => obs[host := ch]
    case RemoveObs(host) => obs - {host}
    case _ => obs
  }

  lemma TableStep<M>(inputs: seq<Input<M>>, i: nat, obs: map<Host, Channel>)
    requires i < |inputs| && IsTable(inputs, i, obs)
    ensures IsTable(inputs, i + 1, Updated(obs, inputs[i]))
  {
    var obs' := Updated(obs, inputs[i]);
    forall host, ch
      ensures Knows(obs', host, ch) <==> Registered(inputs, i + 1, host, ch)
    {
      RegisteredStep(inputs, i, host, ch);
    }
  }

  /** The publisher's loop.  Observers are visited in an arbitrary order. */
  method HandlePublish<M(==)>(inputs: seq<Input<M>>) returns (sends: seq<Send<M>>)
    ensures IsPublication(inputs, |inputs|, sends) && IsComplete(inputs, |inputs|, sends)
  {
    sends := [];
    var obs: map<Host, Channel> := map[];
    var more := true;
    var i := 0;
    while more && i < |inputs|
      invariant i <= |inputs|
      invariant IsTable(inputs, i, obs)
      invariant IsPublication(inputs, i, sends) && IsComplete(inputs, i, sends)
      invariant more ==> forall k :: 0 <= k < i ==> !inputs[k].Close?
      invariant !more ==> i > 0 && inputs[i - 1].Close?
      decreases |inputs| - i
    {
      TableStep(inputs, i, obs);
      match inputs[i] {
        case AddObs(host, ch) =>
          obs := obs[host := ch];
        case RemoveObs(host) =>
          obs := obs - {host};
        case Publish(_, _) =>
          sends := SendToAll(inputs, i, obs, sends);
        case Close(_) =>
          more := false;
          sends := SendToAll(inputs, i, obs, sends);
      }
      i := i + 1;
    }
  }

  /** The inner loop: offers input i to every observer, skipping those not ready. */
  method SendToAll<M(==)>(inputs: seq<Input<M>>, i: nat, obs: map<Host, Channel>, before: seq<Send<M>>)
    returns (sends: seq<Send<M>>)
    requires i < |inputs| && (inputs[i].Publish? || inputs[i].Close?) && IsTable(inputs, i, obs)
    requires forall k :: 0 <= k < i ==> !inputs[k].Close?
    requires IsPublication(inputs, i, before) && IsComplete(inputs, i, before)
    ensures IsPublication(inputs, i + 1, sends) && IsComplete(inputs, i + 1, sends)
  {
    sends := before;
    var left := obs.Keys;
    while left != {}
      invariant left <= obs.Keys
      invariant IsPublication(inputs, i + 1, sends) && before <= sends
      invariant forall p :: 0 <= p < |sends| && sends[p].at == i ==> sends[p].host !in left
      invariant forall host :: host in obs && host !in left && host in inputs[i].ready ==>
                  Send(i, host, obs[host], MessageAt(inputs, i)) in sends
      decreases left
    {
      var host :| host in left;
      left := left - {host};
      if host in inputs[i].ready {
        assert Knows(obs, host, obs[host]) && Reaches(inputs, i, host, obs[host]);
        sends := sends + [Send(i, host, obs[host], MessageAt(inputs, i))];
      }
    }
  }

  // ---------- What one monitor receives ----------

  /** Every registration brings a channel of its own. */
  predicate FreshChannels<M(==)>(inputs: seq<Input<M>>) {
    forall j, k :: 0 <= j < k < |inputs| && inputs[j].AddObs? && inputs[k].AddObs? ==> inputs[j].ch != inputs[k].ch
  }

  /** With a fresh channel per registration, what a monitor registered at
      position j receives was published, or was the closing message, after j and
      before its host was removed or registered anew, while it was ready. */
  lemma MonitorReceives<M>(inputs: seq<Input<M>>, sends: seq<Send<M>>, j: nat, p: nat)
    requires IsPublication(inputs, |inputs|, sends) && FreshChannels(inputs)
    requires j < |inputs| && inputs[j].AddObs? && p < |sends| && sends[p].ch == inputs[j].ch
    ensures j < sends[p].at < |inputs| && sends[p].host == inputs[j].host
    ensures var input := inputs[sends[p].at];
            ((input.Publish? && sends[p].msg == Some(input.msg)) || (input.Close? && sends[p].msg == None)) &&
            sends[p].host in input.ready
    ensures forall k :: 0 <= k < sends[p].at ==> !inputs[k].Close?
    ensures forall k :: j < k < sends[p].at ==> !Touches(inputs[k], inputs[j].host)
  {
    RegisteredHere(inputs, sends[p].at, sends[p].host, inputs[j].ch, j);
  }

  /** It receives them in the order of publication and each at most once. */
  lemma MonitorReceivesInOrder<M>(inputs: seq<Input<M>>, sends: seq<Send<M>>, j: nat, p: nat, q: nat)
    requires IsPublication(inputs, |inputs|, sends) && FreshChannels(inputs)
    requires j < |inputs| && inputs[j].AddObs?
    requires p < q < |sends| && sends[p].ch == sends[q].ch == inputs[j].ch
    ensures sends[p].at < sends[q].at
  {
    MonitorReceives(inputs, sends, j, p);
    MonitorReceives(inputs, sends, j, q);
  }

  /** And it misses nothing for which it was ready in that time. */
  lemma MonitorMissesNothing<M>(inputs: seq<Input<M>>, sends: seq<Send<M>>, j: nat, i: nat)
    requires IsComplete(inputs, |inputs|, sends)
    requires j < i < |inputs| && inputs[j].AddObs? && (inputs[i].Publish? || inputs[i].Close?)
    requires inputs[j].host in inputs[i].ready
    requires forall k :: j < k < i ==> !Touches(inputs[k], inputs[j].host)
    requires forall k :: 0 <= k < i ==> !inputs[k].Close?
    ensures Send(i, inputs[j].host, inputs[j].ch, if inputs[i].Publish? then Some(inputs[i].msg) else None) in sends
  {
    assert RegisteredSince(inputs, j, i, inputs[j].host, inputs[j].ch);
    assert Reaches(inputs, i, inputs[j].host, inputs[j].ch);
  }

  lemma RegisteredHere<M>(inputs: seq<Input<M>>, i: nat, host: Host, ch: Channel, j: nat)
    requires FreshChannels(inputs) && i < |inputs| && Registered(inputs, i, host, ch)
    requires j < |inputs| && inputs[j].AddObs? && inputs[j].ch == ch
    ensures inputs[j].host == host && RegisteredSince(inputs, j, i, host, ch)
  {
    var k: nat :| RegisteredSince(inputs, k, i, host, ch);
    assert k == j;
  }
}

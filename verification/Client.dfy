/**
 The client's loop over the server's replies (client.go).
 */
module Client {
  import opened Workers

  /** What one read from the connection yields: a reply, together with whether
      the deadline of the whole search has passed by then, a read error, or a
      reply of an unknown type. */
  datatype Incoming =
    | Message(reply: Reply, late: bool)
    | ReadError
    | UnknownType

  datatype Outcome =
    | Reading
    | Found(reply: Reply)
    | TimedOut
    | NoneInCluster
    | ConnectionError
    | NotUnderstood

  /** What the loop does with one read. */
  function Handle(r: Incoming): Outcome {
    match r
    case ReadError => ConnectionError
    case UnknownType => NotUnderstood
    case Message(reply, late) =>
      if reply.Queued? then (if late then TimedOut else Reading)
      else if reply.NoWorkers? then NoneInCluster
      else Found(reply)
  }

  /** What the loop returns on everything the connection would yield.  A
      connection that yields no more fails the next read. */
  function Search(input: seq<Incoming>): Outcome {
    if |input| == 0 then ConnectionError
    else if Handle(input[0]).Reading? then Search(input[1..])
    else Handle(input[0])
  }

  method FindWorker(input: seq<Incoming>) returns (outcome: Outcome)
    ensures outcome == Search(input)
  {
    var used := 0;
    outcome := Reading;
    while outcome.Reading?
      invariant used <= |input|
      invariant outcome.Reading? ==> Search(input) == Search(input[used..])
      invariant !outcome.Reading? ==> outcome == Search(input)
      decreases |input| - used, outcome.Reading?
    {
      if used == |input| {
        outcome := ConnectionError;
      } else {
        outcome := Handle(input[used]);
        used := used + 1;
      }
    }
  }

  /** The client keeps waiting after this read. */
  predicate Waits(r: Incoming) {
    r == Message(Queued, false)
  }

  /** The first read that does not make the client wait stands at position n. */
  predicate EndsAt(input: seq<Incoming>, n: nat) {
    n < |input| && !Waits(input[n]) && forall i :: 0 <= i < n ==> Waits(input[i])
  }

  /** The first read that is no timely Queued reply decides: a late one is a
      timeout, NoWorkers means there are none, a valid reply is the answer. */
  lemma {:induction false} FirstAnswerDecides(input: seq<Incoming>, n: nat)
    requires EndsAt(input, n)
    ensures input[n] == Message(Queued, true) ==> Search(input) == TimedOut
    ensures input[n].Message? && input[n].reply.NoWorkers? ==> Search(input) == NoneInCluster
    ensures input[n].Message? && input[n].reply.Valid? ==> Search(input) == Found(input[n].reply)
    ensures input[n].ReadError? ==> Search(input) == ConnectionError
    ensures input[n].UnknownType? ==> Search(input) == NotUnderstood
  {
    if n > 0 {
      assert Waits(input[0]);
      FirstAnswerDecides(input[1..], n - 1);
    }
  }

  /** Without such a read the connection runs dry. */
  lemma {:induction false} NoAnswerIsAnError(input: seq<Incoming>) returns (n: nat)
    ensures EndsAt(input, n) || (Search(input) == ConnectionError && forall i :: 0 <= i < |input| ==> Waits(input[i]))
  {
    n := 0;
    if |input| > 0 && Waits(input[0]) {
      n := NoAnswerIsAnError(input[1..]);
      n := n + 1;
    }
  }

  /** A worker is found exactly when a valid reply is read after nothing but
      timely Queued replies; that reply is the answer. */
  lemma FoundIffValidAfterQueued(input: seq<Incoming>, reply: Reply)
    ensures Search(input) == Found(reply) <==>
            exists n: nat :: EndsAt(input, n) && input[n].Message? && input[n].reply == reply && reply.Valid?
  {
    if n: nat :| EndsAt(input, n) && input[n].Message? && input[n].reply == reply && reply.Valid? {
      FirstAnswerDecides(input, n);
    }
    if Search(input) == Found(reply) {
      var n := NoAnswerIsAnError(input);
      FirstAnswerDecides(input, n);
    }
  }
}

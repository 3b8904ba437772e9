/**
 Queues as sequences: taking an entry out, and the stable partition of a queue
 by a test on its entries.
 */
module Queues {

  // ---------- Taking an entry out ----------

  function Without<T>(q: seq<T>, i: nat): seq<T>
    requires i < |q|
  {
    q[..i] + q[i + 1..]
  }

  /** The first position of x. */
  function IndexOf<T(==)>(q: seq<T>, x: T): (i: nat)
    requires x in q
    ensures i < |q| && q[i] == x && forall j :: 0 <= j < i ==> q[j] != x
  {
    if q[0] == x then 0 else 1 + IndexOf(q[1..], x)
  }

  /** Nothing is queued twice. */
  ghost predicate Distinct<T>(q: seq<T>) {
    forall i, j :: 0 <= i < j < |q| ==> q[i] != q[j]
  }

  lemma WithoutMembers<T>(q: seq<T>, i: nat)
    requires i < |q| && Distinct(q)
    ensures Distinct(Without(q, i))
    ensures forall x :: x in Without(q, i) <==> x in q && x != q[i]
  {
    var rest := Without(q, i);
    forall j | 0 <= j < |q| && j != i
      ensures q[j] in rest
    {
      assert rest[if j < i then j else j - 1] == q[j];
    }
  }

  // ---------- The stable partition ----------

  /** The entries that pass the test, or those that fail it, in queue order. */
  ghost function Part<T>(q: seq<T>, test: T -> bool, passing: bool): seq<T> {
    if |q| == 0 then []
    else (if test(q[0]) == passing then [q[0]] else []) + Part(q[1..], test, passing)
  }

  /** The first entry that passes the test stands at position i. */
  ghost predicate FirstAt<T>(q: seq<T>, test: T -> bool, i: nat) {
    i < |q| && test(q[i]) && forall j :: 0 <= j < i ==> !test(q[j])
  }

  /** Taking the first passing entry out takes it off the front of the passing
      part and leaves the failing part as it is. */
  lemma {:induction false} TakeFirst<T>(q: seq<T>, test: T -> bool, i: nat)
    requires FirstAt(q, test, i)
    ensures Part(q, test, true) == [q[i]] + Part(Without(q, i), test, true)
    ensures Part(q, test, false) == Part(Without(q, i), test, false)
  {
    var rest := Without(q, i);
    if i == 0 {
      assert rest == q[1..];
    } else {
      assert FirstAt(q[1..], test, i - 1);
      TakeFirst(q[1..], test, i - 1);
      assert rest[1..] == Without(q[1..], i - 1);
      assert rest[0] == q[0];
    }
  }

  lemma {:induction false} NonePasses<T>(q: seq<T>, test: T -> bool)
    requires forall x :: x in q ==> !test(x)
    ensures Part(q, test, true) == [] && Part(q, test, false) == q
  {
    if |q| > 0 {
      NonePasses(q[1..], test);
    }
  }

  /** Only the test's verdicts on the entries count. */
  lemma {:induction false} PartFrame<T>(q: seq<T>, test: T -> bool, test': T -> bool, passing: bool)
    requires forall x :: x in q ==> test(x) == test'(x)
    ensures Part(q, test, passing) == Part(q, test', passing)
  {
    if |q| > 0 {
      PartFrame(q[1..], test, test', passing);
    }
  }

  /** The two parts split the queue by membership. */
  lemma {:induction false} PartMembers<T>(q: seq<T>, test: T -> bool, passing: bool)
    ensures forall x :: x in Part(q, test, passing) <==> x in q && test(x) == passing
    ensures |Part(q, test, passing)| + |Part(q, test, !passing)| == |q|
  {
    if |q| > 0 {
      PartMembers(q[1..], test, passing);
      assert forall x :: x in q <==> x == q[0] || x in q[1..];
    }
  }

  lemma {:induction false} PartEntry<T>(q: seq<T>, test: T -> bool, passing: bool, i: nat) returns (p: nat)
    requires i < |Part(q, test, passing)|
    ensures p < |q| && q[p] == Part(q, test, passing)[i]
  {
    if test(q[0]) == passing && i == 0 {
      p := 0;
    } else {
      var skip := if test(q[0]) == passing then 1 else 0;
      p := PartEntry(q[1..], test, passing, i - skip);
      p := p + 1;
    }
  }

  /** Each part keeps the queue's order: its entries i and j stand at positions
      p and r of the queue, in the same order. */
  lemma {:induction false} PartIsStable<T>(q: seq<T>, test: T -> bool, passing: bool, i: nat, j: nat)
    returns (p: nat, r: nat)
    requires i < j < |Part(q, test, passing)|
    ensures p < r < |q|
    ensures q[p] == Part(q, test, passing)[i] && q[r] == Part(q, test, passing)[j]
  {
    if test(q[0]) != passing {
      p, r := PartIsStable(q[1..], test, passing, i, j);
      p, r := p + 1, r + 1;
    } else if i > 0 {
      p, r := PartIsStable(q[1..], test, passing, i - 1, j - 1);
      p, r := p + 1, r + 1;
    } else {
      var m := PartEntry(q[1..], test, passing, j - 1);
      p, r := 0, m + 1;
    }
  }
}

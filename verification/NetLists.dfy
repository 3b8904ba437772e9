/**
 Address lists: sorting one in place and searching two for a match.
 */
module NetLists {
  import opened Wrappers
  import opened Net
  import opened NetOrder
  import opened Queues

  // ---------- Sorting in place ----------

  method Swap(a: array<IPNet>, i: nat, j: nat)
    requires i < a.Length && j < a.Length
    modifies a
    ensures a[..] == old(a[..])[i := old(a[j])][j := old(a[i])]
    ensures multiset(a[..]) == multiset(old(a[..]))
  {
    a[i], a[j] := a[j], a[i];
  }

  ghost function HasKey(key: int): IPNet -> bool {
    (n: IPNet) => Key(n.ip) == key
  }

  /** Entries with equal keys stand in the same order in both lists. */
  ghost predicate SameTies(s: seq<IPNet>, t: seq<IPNet>) {
    forall key :: Part(t, HasKey(key), true) == Part(s, HasKey(key), true)
  }

  /** t has the entries of s, those with equal keys in the same order. */
  ghost predicate Reordered(s: seq<IPNet>, t: seq<IPNet>) {
    multiset(s) == multiset(t) && SameTies(s, t)
  }

  /** t is the result that a stable sort of s has. */
  ghost predicate IsStableSorting(s: seq<IPNet>, t: seq<IPNet>) {
    IsSorting(s, t) && SameTies(s, t)
  }

  /** Exchanging two neighbours that do not both pass a test keeps the order of
      those that do. */
  lemma {:induction false} SwapKeepsPart(s: seq<IPNet>, j: nat, test: IPNet -> bool)
    requires 0 < j < |s| && !(test(s[j - 1]) && test(s[j]))
    ensures Part(s[j := s[j - 1]][j - 1 := s[j]], test, true) == Part(s, test, true)
  {
    var t := s[j := s[j - 1]][j - 1 := s[j]];
    if j > 1 {
      SwapKeepsPart(s[1..], j - 1, test);
      assert t[1..] == s[1..][j - 1 := s[1..][j - 2]][j - 2 := s[1..][j - 1]];
    } else {
      assert t[1..][1..] == s[1..][1..];
    }
  }

  lemma SwapReorders(s: seq<IPNet>, t: seq<IPNet>, j: nat)
    requires Reordered(s, t) && 0 < j < |t| && Less(t[j].ip, t[j - 1].ip)
    ensures Reordered(s, t[j := t[j - 1]][j - 1 := t[j]])
  {
    hide Key, Less, Part;
    LessComparesKeys(t[j].ip, t[j - 1].ip);
    forall key
      ensures Part(t[j := t[j - 1]][j - 1 := t[j]], HasKey(key), true) == Part(t, HasKey(key), true)
    {
      SwapKeepsPart(t, j, HasKey(key));
    }
  }

  /** One round of insertion sort: entry i sinks to its place among those before
      it, using only Less and Swap. */
  method Insert(a: array<IPNet>, i: nat, ghost was: seq<IPNet>)
    requires i < a.Length && KeysAscend(a[..], i, i) && Reordered(was, a[..])
    modifies a
    ensures KeysAscend(a[..], i + 1, i + 1) && Reordered(was, a[..])
  {
    hide Less, Key, Reordered;
    var j := i;
    while 0 < j && Less(a[j].ip, a[j - 1].ip)
      invariant 0 <= j <= i
      invariant Reordered(was, a[..])
      invariant KeysAscend(a[..], i + 1, j)
      invariant forall p, q :: 0 <= p < j < q <= i ==> Key(a[p].ip) <= Key(a[q].ip)
    {
      LessComparesKeys(a[j].ip, a[j - 1].ip);
      SwapReorders(was, a[..], j);
      Swap(a, j, j - 1);
      j := j - 1;
    }
    if 0 < j {
      LessComparesKeys(a[j].ip, a[j - 1].ip);
    }
  }

  /** Insertion sort, as the sort package does it on short lists. */
  method SortByPrivateIP(a: array<IPNet>)
    modifies a
    ensures IsStableSorting(old(a[..]), a[..])
  {
    hide Less, Key;
    for i := 0 to a.Length
      invariant Reordered(old(a[..]), a[..]) && KeysAscend(a[..], i, i)
    {
      Insert(a, i, old(a[..]));
    }
    SortedByKey(a[..]);
  }

  /** Sorts a list that is a field: copies it out, sorts the copy in place. */
  method SortedList(s: seq<IPNet>) returns (t: seq<IPNet>)
    ensures IsStableSorting(s, t)
  {
    var a := new IPNet[|s|](i requires 0 <= i < |s| => s[i]);
    assert a[..] == s;
    SortByPrivateIP(a);
    t := a[..];
  }

  lemma {:induction false} TiesAreEntries(s: seq<IPNet>, key: int)
    ensures (forall x :: x in s ==> Key(x.ip) != key) ==> Part(s, HasKey(key), true) == []
    ensures |s| > 0 && Key(s[0].ip) == key ==> |Part(s, HasKey(key), true)| > 0 && Part(s, HasKey(key), true)[0] == s[0]
  {
    hide Key;
    var ties := Part(s, HasKey(key), true);
    PartMembers(s, HasKey(key), true);
    assert |ties| > 0 ==> ties[0] in ties;
  }

  lemma SmallestFirst(t: seq<IPNet>, u: seq<IPNet>)
    requires |t| > 0 && Sorted(u) && SameTies(t, u)
    ensures |u| > 0 && Key(u[0].ip) <= Key(t[0].ip)
  {
    hide Key, Less;
    var key := Key(t[0].ip);
    SortedByKey(u);
    TiesAreEntries(t, key);
    TiesAreEntries(u, key);
    assert Part(u, HasKey(key), true) == Part(t, HasKey(key), true);
  }

  lemma PartTail(s: seq<IPNet>, test: IPNet -> bool)
    requires |s| > 0
    ensures var k := if test(s[0]) then 1 else 0;
            |Part(s, test, true)| >= k && Part(s[1..], test, true) == Part(s, test, true)[k..]
  {
  }

  /** A list has one stable sorting. */
  lemma {:induction false} StableSortingIsUnique(t: seq<IPNet>, u: seq<IPNet>)
    requires Sorted(t) && Sorted(u) && SameTies(t, u)
    ensures t == u
  {
    hide Key, Less;
    if |t| > 0 {
      SmallestFirst(t, u);
      SmallestFirst(u, t);
      var key := Key(t[0].ip);
      TiesAreEntries(t, key);
      TiesAreEntries(u, key);
      assert t[0] == u[0];
      forall key
        ensures Part(u[1..], HasKey(key), true) == Part(t[1..], HasKey(key), true)
      {
        assert Part(u, HasKey(key), true) == Part(t, HasKey(key), true);
        PartTail(t, HasKey(key));
        PartTail(u, HasKey(key));
      }
      StableSortingIsUnique(t[1..], u[1..]);
    } else if |u| > 0 {
      SmallestFirst(u, t);
    }
  }

  /** So a stable sort leaves a sorted list as it is. */
  lemma SortedStays(s: seq<IPNet>, t: seq<IPNet>)
    requires Sorted(s) && IsStableSorting(s, t)
    ensures t == s
  {
    hide Key, Less;
    StableSortingIsUnique(s, t);
  }

  /** The first n keys ascend once the entry at position hole is left out. */
  ghost predicate KeysAscend(s: seq<IPNet>, n: nat, hole: nat)
    requires n <= |s|
  {
    forall p, q :: 0 <= p < q < n && q != hole ==> Key(s[p].ip) <= Key(s[q].ip)
  }

  /** Every list has a sorting. */
  lemma {:induction false} SortingExists(s: seq<IPNet>) returns (t: seq<IPNet>)
    ensures IsSorting(s, t)
  {
    hide Sorted;
    t := [];
    assert Sorted(t) by { SortedByKey(t); }
    if |s| > 0 {
      var n := |s| - 1;
      var u := SortingExists(s[..n]);
      var k := InsertionPoint(u, s[n]);
      t := u[..k] + [s[n]] + u[k..];
      InsertKeepsSorted(u, k, s[n]);
      InsertAddsOne(u, k, s[n]);
      InsertAddsOne(s[..n], n, s[n]);
      assert s[..n][..n] + [s[n]] + s[..n][n..] == s;
    }
  }

  lemma InsertAddsOne(u: seq<IPNet>, k: nat, x: IPNet)
    requires k <= |u|
    ensures multiset(u[..k] + [x] + u[k..]) == multiset(u) + multiset{x}
  {
    assert u == u[..k] + u[k..];
  }

  lemma InsertKeepsSorted(u: seq<IPNet>, k: nat, x: IPNet)
    requires Sorted(u) && k <= |u|
    requires forall i :: 0 <= i < k ==> Key(u[i].ip) <= Key(x.ip)
    requires forall i :: k <= i < |u| ==> Key(x.ip) <= Key(u[i].ip)
    ensures Sorted(u[..k] + [x] + u[k..])
  {
    hide Key, Less;
    var t := u[..k] + [x] + u[k..];
    SortedByKey(u);
    forall i, j | 0 <= i < j < |t|
      ensures Key(t[i].ip) <= Key(t[j].ip)
    {
      assert i != k ==> t[i] == u[if i < k then i else i - 1];
      assert j != k ==> t[j] == u[if j < k then j else j - 1];
    }
    SortedByKey(t);
  }

  /** The leftmost place for x in a sorted list. */
  lemma InsertionPoint(u: seq<IPNet>, x: IPNet) returns (k: nat)
    requires Sorted(u)
    ensures k <= |u|
    ensures forall i :: 0 <= i < k ==> Key(u[i].ip) < Key(x.ip)
    ensures forall i :: k <= i < |u| ==> Key(x.ip) <= Key(u[i].ip)
  {
    hide Key;
    SortedByKey(u);
    k := 0;
    while k < |u| && Key(u[k].ip) < Key(x.ip)
      invariant k <= |u|
      invariant forall i :: 0 <= i < k ==> Key(u[i].ip) < Key(x.ip)
    {
      k := k + 1;
    }
  }

  /** Every entry stands first among its equals in some sorting. */
  lemma SortingWithFirst(s: seq<IPNet>, x: IPNet) returns (t: seq<IPNet>, k: nat)
    requires x in s
    ensures IsSorting(s, t) && k < |t| && t[k] == x
    ensures forall i :: 0 <= i < k ==> Less(t[i].ip, x.ip)
  {
    hide Sorted, Key, Less;
    var p :| 0 <= p < |s| && s[p] == x;
    var rest := s[..p] + s[p + 1..];
    var u := SortingExists(rest);
    k := InsertionPoint(u, x);
    t := u[..k] + [x] + u[k..];
    InsertKeepsSorted(u, k, x);
    InsertAddsOne(u, k, x);
    InsertAddsOne(rest, p, x);
    assert rest[..p] + [x] + rest[p..] == s;
    forall i | 0 <= i < k
      ensures Less(t[i].ip, x.ip)
    {
      LessComparesKeys(u[i].ip, x.ip);
    }
  }

  // ---------- Searching for a match ----------

  /** The indices (i, j) of a containing network and a contained address such
      that no pair before them in the nested search matches. */
  ghost predicate IsFirstMatch(nets: seq<IPNet>, addrs: seq<IPNet>, i: nat, j: nat) {
    i < |nets| && j < |addrs| && Contains(nets[i], addrs[j].ip) &&
    (forall y :: 0 <= y < j ==> !Contains(nets[i], addrs[y].ip)) &&
    (forall x, y :: 0 <= x < i && 0 <= y < |addrs| ==> !Contains(nets[x], addrs[y].ip))
  }

  lemma {:induction false} FirstInsideIsFirst(net: IPNet, addrs: seq<IPNet>) returns (j: nat)
    ensures FirstInside(net, addrs).None? ==> forall y :: 0 <= y < |addrs| ==> !Contains(net, addrs[y].ip)
    ensures FirstInside(net, addrs).Some? ==>
              j < |addrs| && FirstInside(net, addrs).value == addrs[j] && Contains(net, addrs[j].ip) &&
              forall y :: 0 <= y < j ==> !Contains(net, addrs[y].ip)
  {
    hide Contains;
    j := 0;
    if |addrs| > 0 && !Contains(net, addrs[0].ip) {
      var k := FirstInsideIsFirst(net, addrs[1..]);
      j := k + 1;
      assert forall y :: 1 <= y < |addrs| ==> addrs[y] == addrs[1..][y - 1];
    }
  }

  lemma {:induction false} MatchIsFirst(nets: seq<IPNet>, addrs: seq<IPNet>) returns (i: nat, j: nat)
    ensures Match(nets, addrs).None? ==> !Reachable(nets, addrs)
    ensures Match(nets, addrs).Some? ==>
              IsFirstMatch(nets, addrs, i, j) && Match(nets, addrs) == Some(addrs[j]) && Reachable(nets, addrs)
  {
    hide Contains;
    i, j := 0, 0;
    if |nets| > 0 {
      j := FirstInsideIsFirst(nets[0], addrs);
      if FirstInside(nets[0], addrs).Some? {
        assert Contains(nets[0], addrs[j].ip);
      } else {
        var k, l := MatchIsFirst(nets[1..], addrs);
        i, j := k + 1, l;
        assert forall x :: 1 <= x < |nets| ==> nets[x] == nets[1..][x - 1];
        forall a, b | a in nets && b in addrs && Contains(a, b.ip)
          ensures Reachable(nets[1..], addrs)
        {
          assert a != nets[0];
          assert a in nets[1..];
        }
      }
      if Match(nets, addrs).Some? {
        assert nets[i] in nets && addrs[j] in addrs && Contains(nets[i], addrs[j].ip);
      }
    }
  }

  /** The nested search of getMatchingIP; None is its error. */
  method GetMatchingIP(nets: seq<IPNet>, addrs: seq<IPNet>) returns (r: Option<IPNet>)
    ensures r == Match(nets, addrs)
    ensures r.Some? <==> Reachable(nets, addrs)
    ensures r.Some? ==> exists i: nat, j: nat :: IsFirstMatch(nets, addrs, i, j) && r.value == addrs[j]
  {
    hide Contains;
    ghost var p, q := MatchIsFirst(nets, addrs);
    for i := 0 to |nets|
      invariant Match(nets, addrs) == Match(nets[i..], addrs)
    {
      assert nets[i..][0] == nets[i] && nets[i..][1..] == nets[i + 1..];
      for j := 0 to |addrs|
        invariant FirstInside(nets[i], addrs) == FirstInside(nets[i], addrs[j..])
      {
        assert addrs[j..][0] == addrs[j] && addrs[j..][1..] == addrs[j + 1..];
        if Contains(nets[i], addrs[j].ip) {
          return Some(addrs[j]);
        }
      }
    }
    return None;
  }

  // ---------- What the match means ----------

  /** Address b is the Less-least of addrs inside network a, and a is the
      Less-least of nets that contains any of addrs.  Only membership in the
      two lists counts, never position. */
  ghost predicate IsBestMatch(nets: seq<IPNet>, addrs: seq<IPNet>, a: IPNet, b: IPNet) {
    a in nets && b in addrs && Contains(a, b.ip) &&
    (forall x, y :: x in nets && y in addrs && Less(x.ip, a.ip) ==> !Contains(x, y.ip)) &&
    (forall y :: y in addrs && Contains(a, y.ip) ==> !Less(y.ip, b.ip))
  }

  lemma SortedMatchIsBest(nets: seq<IPNet>, addrs: seq<IPNet>) returns (a: IPNet)
    requires Sorted(nets) && Sorted(addrs) && Reachable(nets, addrs)
    ensures Match(nets, addrs).Some? && IsBestMatch(nets, addrs, a, Match(nets, addrs).value)
  {
    var i, j := MatchIsFirst(nets, addrs);
    a := nets[i];
    forall x, y | x in nets && y in addrs && Less(x.ip, a.ip)
      ensures !Contains(x, y.ip)
    {
      var k :| 0 <= k < |nets| && nets[k] == x;
      var l :| 0 <= l < |addrs| && addrs[l] == y;
      LessIsStrictTotalOrder(x.ip, a.ip, a.ip);
      assert k < i;
    }
    forall y | y in addrs && Contains(a, y.ip)
      ensures !Less(y.ip, addrs[j].ip)
    {
      var l :| 0 <= l < |addrs| && addrs[l] == y;
      LessIsStrictTotalOrder(y.ip, y.ip, y.ip);
      assert j <= l;
    }
  }

  lemma BestMatchIsUnique(nets: seq<IPNet>, addrs: seq<IPNet>, a: IPNet, b: IPNet, a': IPNet, b': IPNet)
    requires DistinctIPs(nets) && DistinctIPs(addrs)
    requires IsBestMatch(nets, addrs, a, b) && IsBestMatch(nets, addrs, a', b')
    ensures a == a' && b == b'
  {
    LessIsStrictTotalOrder(a.ip, a'.ip, a.ip);
    assert a.ip == a'.ip;
    var i :| 0 <= i < |nets| && nets[i] == a;
    var j :| 0 <= j < |nets| && nets[j] == a';
    assert i == j;
    LessIsStrictTotalOrder(b.ip, b'.ip, b.ip);
    var k :| 0 <= k < |addrs| && addrs[k] == b;
    var l :| 0 <= l < |addrs| && addrs[l] == b';
    assert k == l;
  }

  lemma ReachableIgnoresOrder(nets: seq<IPNet>, nets': seq<IPNet>, addrs: seq<IPNet>, addrs': seq<IPNet>)
    requires multiset(nets) == multiset(nets') && multiset(addrs) == multiset(addrs')
    ensures Reachable(nets, addrs) <==> Reachable(nets', addrs')
  {
    SameElements(nets, nets');
    SameElements(addrs, addrs');
  }

  /** The matched address depends neither on how the two lists were ordered
      before sorting nor on the sorting algorithm. */
  ghost predicate OrderIndependent(nets: seq<IPNet>, addrs: seq<IPNet>) {
    forall s, s', t, t' ::
      IsSorting(nets, s) && IsSorting(nets, s') && IsSorting(addrs, t) && IsSorting(addrs, t') ==>
        Match(s, t) == Match(s', t')
  }

  /** All best matches have the same address. */
  ghost predicate BestAgrees(nets: seq<IPNet>, addrs: seq<IPNet>) {
    forall a, b, a', b' :: IsBestMatch(nets, addrs, a, b) && IsBestMatch(nets, addrs, a', b') ==> b == b'
  }

  /** The match of two sortings is a best match, if there is any. */
  lemma SortingsMatchBest(nets: seq<IPNet>, addrs: seq<IPNet>, s: seq<IPNet>, t: seq<IPNet>)
    requires IsSorting(nets, s) && IsSorting(addrs, t)
    ensures if Reachable(nets, addrs) then
              Match(s, t).Some? && exists a :: IsBestMatch(nets, addrs, a, Match(s, t).value)
            else Match(s, t).None?
  {
    hide Contains, Less, Sorted;
    ReachableIgnoresOrder(nets, s, addrs, t);
    if Reachable(nets, addrs) {
      var a := SortedMatchIsBest(s, t);
      SameElements(nets, s);
      SameElements(addrs, t);
      assert IsBestMatch(nets, addrs, a, Match(s, t).value);
    } else {
      var i, j := MatchIsFirst(s, t);
    }
  }

  /** Every best match is the match of some sortings. */
  lemma BestMatchIsRealised(nets: seq<IPNet>, addrs: seq<IPNet>, a: IPNet, b: IPNet)
    returns (s: seq<IPNet>, t: seq<IPNet>)
    requires IsBestMatch(nets, addrs, a, b)
    ensures IsSorting(nets, s) && IsSorting(addrs, t) && Match(s, t) == Some(b)
  {
    hide Contains, Less, Sorted, Match;
    var k, l;
    s, k := SortingWithFirst(nets, a);
    t, l := SortingWithFirst(addrs, b);
    SameElements(nets, s);
    SameElements(addrs, t);
    assert Contains(s[k], t[l].ip);
    var i, j := MatchIsFirst(s, t);
    assert Reachable(s, t);
    assert s[i] in nets && t[j] in addrs;
  }

  /** Listing order and sorting algorithm show if and only if two best matches
      have different addresses, which only the members of the lists decide. */
  lemma OrderIndependentIff(nets: seq<IPNet>, addrs: seq<IPNet>)
    ensures OrderIndependent(nets, addrs) <==> BestAgrees(nets, addrs)
  {
    hide IsSorting, IsBestMatch, Match, Reachable;
    if BestAgrees(nets, addrs) {
      forall s, s', t, t' | IsSorting(nets, s) && IsSorting(nets, s') && IsSorting(addrs, t) && IsSorting(addrs, t')
        ensures Match(s, t) == Match(s', t')
      {
        SortingsMatchBest(nets, addrs, s, t);
        SortingsMatchBest(nets, addrs, s', t');
      }
    }
    if OrderIndependent(nets, addrs) {
      forall a, b, a', b' | IsBestMatch(nets, addrs, a, b) && IsBestMatch(nets, addrs, a', b')
        ensures b == b'
      {
        var s, t := BestMatchIsRealised(nets, addrs, a, b);
        var s', t' := BestMatchIsRealised(nets, addrs, a', b');
      }
    }
  }

  /** So it does not show when addresses are distinct on either side. */
  lemma ListingOrderIrrelevant(nets: seq<IPNet>, nets': seq<IPNet>, addrs: seq<IPNet>, addrs': seq<IPNet>,
                               s: seq<IPNet>, s': seq<IPNet>, t: seq<IPNet>, t': seq<IPNet>)
    requires multiset(nets) == multiset(nets') && multiset(addrs) == multiset(addrs')
    requires DistinctIPs(nets) && DistinctIPs(addrs)
    requires IsSorting(nets, s) && IsSorting(nets', s') && IsSorting(addrs, t) && IsSorting(addrs', t')
    ensures Match(s, t) == Match(s', t')
  {
    hide IsBestMatch, Match;
    forall a, b, a', b' | IsBestMatch(nets, addrs, a, b) && IsBestMatch(nets, addrs, a', b')
      ensures b == b'
    {
      BestMatchIsUnique(nets, addrs, a, b, a', b');
    }
    OrderIndependentIff(nets, addrs);
    assert IsSorting(nets, s') && IsSorting(addrs, t');
  }

  /** A Less-least network of those that contain any of addrs. */
  ghost predicate IsLeastNet(nets: seq<IPNet>, addrs: seq<IPNet>, a: IPNet) {
    a in nets && FirstInside(a, addrs).Some? &&
    forall x :: x in nets && Less(x.ip, a.ip) ==> FirstInside(x, addrs).None?
  }

  /** All least networks contain the same address first. */
  ghost predicate LeastNetsAgree(nets: seq<IPNet>, addrs: seq<IPNet>) {
    forall a, a' :: IsLeastNet(nets, addrs, a) && IsLeastNet(nets, addrs, a') ==>
      FirstInside(a, addrs) == FirstInside(a', addrs)
  }

  /** With the second list as it is, the sorting of the first does not show. */
  ghost predicate SortingIrrelevant(nets: seq<IPNet>, addrs: seq<IPNet>) {
    forall s, s' :: IsSorting(nets, s) && IsSorting(nets, s') ==> Match(s, addrs) == Match(s', addrs)
  }

  lemma {:induction false} MatchAt(s: seq<IPNet>, addrs: seq<IPNet>, k: nat)
    requires k <= |s| && forall i :: 0 <= i < k ==> FirstInside(s[i], addrs).None?
    requires k < |s| ==> FirstInside(s[k], addrs).Some?
    ensures Match(s, addrs) == if k < |s| then FirstInside(s[k], addrs) else None
  {
    if k > 0 {
      MatchAt(s[1..], addrs, k - 1);
    }
  }

  lemma SortedMatchIsLeast(nets: seq<IPNet>, addrs: seq<IPNet>, s: seq<IPNet>)
    requires IsSorting(nets, s)
    ensures if Match(s, addrs).Some? then
              exists a :: IsLeastNet(nets, addrs, a) && Match(s, addrs) == FirstInside(a, addrs)
            else forall a :: a in nets ==> FirstInside(a, addrs).None?
  {
    hide Less, FirstInside, Match;
    SameElements(nets, s);
    var k := 0;
    while k < |s| && FirstInside(s[k], addrs).None?
      invariant k <= |s| && forall i :: 0 <= i < k ==> FirstInside(s[i], addrs).None?
    {
      k := k + 1;
    }
    MatchAt(s, addrs, k);
    if k < |s| {
      forall x | x in nets && Less(x.ip, s[k].ip)
        ensures FirstInside(x, addrs).None?
      {
        var i :| 0 <= i < |s| && s[i] == x;
        LessIsStrictTotalOrder(x.ip, x.ip, x.ip);
      }
      assert s[k] in nets;
      assert IsLeastNet(nets, addrs, s[k]);
    }
  }

  lemma LeastNetIsRealised(nets: seq<IPNet>, addrs: seq<IPNet>, a: IPNet) returns (s: seq<IPNet>)
    requires IsLeastNet(nets, addrs, a)
    ensures IsSorting(nets, s) && Match(s, addrs) == FirstInside(a, addrs)
  {
    hide Less, FirstInside, Match;
    var k;
    s, k := SortingWithFirst(nets, a);
    SameElements(nets, s);
    MatchAt(s, addrs, k);
  }

  lemma SortingIrrelevantIff(nets: seq<IPNet>, addrs: seq<IPNet>)
    ensures SortingIrrelevant(nets, addrs) <==> LeastNetsAgree(nets, addrs)
  {
    hide IsSorting, Match, FirstInside, IsLeastNet;
    if LeastNetsAgree(nets, addrs) {
      forall s, s' | IsSorting(nets, s) && IsSorting(nets, s')
        ensures Match(s, addrs) == Match(s', addrs)
      {
        SortedMatchIsLeast(nets, addrs, s);
        SortedMatchIsLeast(nets, addrs, s');
        LeastNetIsMember(nets, addrs);
      }
    }
    if SortingIrrelevant(nets, addrs) {
      forall a, a' | IsLeastNet(nets, addrs, a) && IsLeastNet(nets, addrs, a')
        ensures FirstInside(a, addrs) == FirstInside(a', addrs)
      {
        var s := LeastNetIsRealised(nets, addrs, a);
        var s' := LeastNetIsRealised(nets, addrs, a');
      }
    }
  }

  lemma LeastNetIsMember(nets: seq<IPNet>, addrs: seq<IPNet>)
    ensures forall a :: IsLeastNet(nets, addrs, a) ==> a in nets && FirstInside(a, addrs).Some?
  {
  }

  const LOW: Address := [0, 0, 0, 0, 0, 0, 0, 0, 0, 0, 255, 255, 192, 0, 0, 0]
  const HIGH: Address := [0, 0, 0, 0, 0, 0, 0, 0, 0, 0, 255, 255, 192, 0, 0, 1]
  const WIDE := IPNet(HIGH, [0, 0, 0, 0])
  const NARROW := IPNet(HIGH, [255, 255, 255, 255])

  lemma LowIsLess()
    ensures Less(LOW, HIGH) && !Less(HIGH, LOW) && !Less(HIGH, HIGH)
  {
    assert LOW[..15] == HIGH[..15];
    assert Value(LOW) == Value(LOW[..15]) * 256;
    assert Value(HIGH) == Value(LOW[..15]) * 256 + 1;
  }

  lemma WideContainsMore()
    ensures Contains(WIDE, LOW) && !Contains(NARROW, LOW) && Contains(NARROW, HIGH)
  {
    assert Shortest(LOW) == [192, 0, 0, 0] && Shortest(HIGH) == [192, 0, 0, 1];
    assert MaskFor(NARROW) == Some([255, 255, 255, 255]) && MaskFor(WIDE) == Some([0, 0, 0, 0]);
    assert And(1, 255) == 1 && And(0, 255) == 0;
    assert And(Shortest(HIGH)[3], 255) != And(Shortest(LOW)[3], 255);
  }

  /** Distinctness is needed: two networks with one address and different masks
      may be listed either way after sorting, and then match differently. */
  lemma TiedNetworksCanDisagree() returns (addrs: seq<IPNet>)
    ensures IsSorting([WIDE, NARROW], [WIDE, NARROW]) && IsSorting([WIDE, NARROW], [NARROW, WIDE])
    ensures Sorted(addrs) && DistinctIPs(addrs)
    ensures Match([WIDE, NARROW], addrs) != Match([NARROW, WIDE], addrs)
  {
    LowIsLess();
    WideContainsMore();
    hide Less, Contains;
    addrs := [IPNet(LOW, []), IPNet(HIGH, [])];
    assert LOW[15] != HIGH[15];
    assert FirstInside(WIDE, addrs) == Some(addrs[0]);
    assert FirstInside(NARROW, addrs[1..]) == Some(addrs[1]);
    assert multiset([WIDE, NARROW]) == multiset([NARROW, WIDE]);
  }

  /** On short lists a client sees this: the insertion sort leaves either listing
      of the two networks as it is, so the listing decides the match. */
  lemma ListingOrderShows(nets: seq<IPNet>, s: seq<IPNet>) returns (addrs: seq<IPNet>)
    requires nets == [WIDE, NARROW] || nets == [NARROW, WIDE]
    requires IsStableSorting(nets, s)
    ensures s == nets && Sorted(addrs) && DistinctIPs(addrs)
    ensures Match([WIDE, NARROW], addrs) != Match([NARROW, WIDE], addrs)
  {
    hide SameTies, Match, Less;
    addrs := TiedNetworksCanDisagree();
    SortedStays(nets, s);
  }
}

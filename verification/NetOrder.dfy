/**
 Less is a strict total order: it compares a single numeric key.
 */
module NetOrder {
  import opened Net

  // ---------- Byte strings as numbers ----------

  function Pow256(n: nat): (p: nat)
    ensures p >= 1
  {
    if n == 0 then 1 else 256 * Pow256(n - 1)
  }

  lemma {:induction false} ValueSplit(s: seq<Byte>, k: nat)
    requires k <= |s|
    ensures Value(s) == Value(s[..k]) * Pow256(|s| - k) + Value(s[k..])
    decreases |s|
  {
    if k == |s| {
      assert s[..k] == s;
    } else {
      var init := s[..|s| - 1];
      ValueSplit(init, k);
      assert init[..k] == s[..k];
      assert s[k..][..|s[k..]| - 1] == init[k..];
      var p := Pow256(|s| - 1 - k);
      assert Pow256(|s| - k) == 256 * p;
      assert Value(s[..k]) * (256 * p) == 256 * (Value(s[..k]) * p);
    }
  }

  lemma {:induction false} ValueBound(s: seq<Byte>)
    ensures Value(s) < Pow256(|s|)
  {
    if |s| > 0 {
      ValueBound(s[..|s| - 1]);
    }
  }

  /** Byte strings of one length denote different numbers unless they are equal. */
  lemma {:induction false} ValueInjective(s: seq<Byte>, t: seq<Byte>)
    requires |s| == |t| && Value(s) == Value(t)
    ensures s == t
  {
    if |s| > 0 {
      var n := |s| - 1;
      ValueInjective(s[..n], t[..n]);
      assert s == s[..n] + [s[n]] && t == t[..n] + [t[n]];
    }
  }

  // ---------- The mapped addresses are a numeric interval ----------

  const MAPPED_LOW := 0xFFFF_0000_0000
  const MAPPED_HIGH := 0x1_0000_0000_0000
  const SPAN := 0x1_0000_0000

  lemma Pow256Values()
    ensures Pow256(2) == 0x1_0000 && Pow256(4) == SPAN
  {
    assert Pow256(1) == 256;
    assert Pow256(2) == 256 * 256;
    assert Pow256(3) == 256 * 256 * 256;
  }

  lemma {:induction false} ZeroValue(s: seq<Byte>)
    ensures Value(s) == 0 <==> forall i :: 0 <= i < |s| ==> s[i] == 0
  {
    if |s| > 0 {
      var n := |s| - 1;
      ZeroValue(s[..n]);
      assert forall i :: 0 <= i < n ==> s[..n][i] == s[i];
    }
  }

  lemma PrefixIsFFFF(s: seq<Byte>)
    requires |s| == 12
    ensures Value(s) == 0xFFFF <==> (forall i :: 0 <= i < 10 ==> s[i] == 0) && s[10] == 255 && s[11] == 255
  {
    var t, u := s[..11], s[..10];
    assert t[..10] == u;
    assert Value(s) == Value(t) * 256 + s[11];
    assert Value(t) == Value(u) * 256 + s[10];
    ZeroValue(u);
    assert forall i :: 0 <= i < 10 ==> u[i] == s[i];
  }

  /** An address is IPv4-mapped exactly when its number lies in one interval. */
  lemma MappedInterval(a: Address)
    ensures IsMapped(a) <==> MAPPED_LOW <= Value(a) < MAPPED_HIGH
  {
    var p := a[..12];
    ValueSplit(a, 12);
    ValueBound(a[12..]);
    Pow256Values();
    PrefixIsFFFF(p);
    assert forall i :: 0 <= i < 12 ==> p[i] == a[i];
    assert Value(a) == Value(p) * SPAN + Value(a[12..]);
  }

  // ---------- The key ----------

  /** The rank of a first octet: 192, then 172, then 10, then all others. */
  function Rank(octet: Byte): nat {
    if octet == 192 then 0 else if octet == 172 then 1 else if octet == 10 then 2 else 3
  }

  /** One number per address.  Addresses below the mapped interval keep their
      value; inside it the rank of the first octet comes before the value;
      above it the value moves up to make room for the ranks. */
  function Key(a: Address): nat {
    var v := Value(a);
    if v < MAPPED_LOW then v
    else if v < MAPPED_HIGH then v + Rank(a[12]) * SPAN
    else v + 3 * SPAN
  }

  /** The branching comparison compares keys. */
  lemma LessComparesKeys(l: Address, r: Address)
    ensures Less(l, r) <==> Key(l) < Key(r)
  {
    MappedInterval(l);
    MappedInterval(r);
  }

  lemma KeyInjective(a: Address, b: Address)
    requires Key(a) == Key(b)
    ensures a == b
  {
    assert Value(a) == Value(b);
    ValueInjective(a, b);
  }

  /** Less is a strict total order on all 16-byte addresses, mapped and not. */
  lemma LessIsStrictTotalOrder(a: Address, b: Address, c: Address)
    ensures !Less(a, a)
    ensures Less(a, b) ==> !Less(b, a)
    ensures Less(a, b) && Less(b, c) ==> Less(a, c)
    ensures a != b ==> Less(a, b) || Less(b, a)
  {
    LessComparesKeys(a, a);
    LessComparesKeys(a, b);
    LessComparesKeys(b, a);
    LessComparesKeys(b, c);
    LessComparesKeys(a, c);
    if Key(a) == Key(b) {
      KeyInjective(a, b);
    }
  }

  /** Among IPv4 addresses the private ones come first: 192, then 172, then 10,
      then the rest; within one rank the smaller number comes first. */
  lemma PrivateFirst(a: Address, b: Address)
    requires IsMapped(a) && IsMapped(b)
    ensures Less(a, b) <==>
            Rank(a[12]) < Rank(b[12]) || (Rank(a[12]) == Rank(b[12]) && Value(a) < Value(b))
  {
  }

  /** The first octet in which two addresses differ is smaller in a. */
  predicate Earlier(a: Address, b: Address) {
    exists k :: 0 <= k < 16 && a[..k] == b[..k] && a[k] < b[k]
  }

  lemma {:induction false} FirstDifferenceDecides(s: seq<Byte>, t: seq<Byte>, k: nat)
    requires |s| == |t| && k < |s| && s[..k] == t[..k] && s[k] < t[k]
    ensures Value(s) < Value(t)
  {
    var n := |s| - 1;
    assert s[..n][..k] == s[..k] && t[..n][..k] == t[..k];
    if k < n {
      FirstDifferenceDecides(s[..n], t[..n], k);
    }
  }

  /** Numbers of addresses compare like the addresses octet by octet. */
  lemma ValuesCompareByOctet(a: Address, b: Address)
    ensures Value(a) < Value(b) <==> Earlier(a, b)
  {
    if k :| 0 <= k < 16 && a[..k] == b[..k] && a[k] < b[k] {
      FirstDifferenceDecides(a, b, k);
    }
    if a != b {
      var k := 0;
      while a[k] == b[k]
        invariant k < 16 && a[..k] == b[..k]
        decreases 16 - k
      {
        assert k == 15 ==> a == b;
        k := k + 1;
      }
      if b[k] < a[k] {
        FirstDifferenceDecides(b, a, k);
      }
    }
  }

  /** The whole order in octets: two IPv4 addresses of which one is private go by
      192, 172, 10 and the rest, if that tells them apart; all others go by the
      first octet in which they differ. */
  lemma LessByOctets(a: Address, b: Address)
    ensures Less(a, b) <==>
            if IsMapped(a) && IsMapped(b) && (a[12] == 192) != (b[12] == 192) then a[12] == 192
            else if IsMapped(a) && IsMapped(b) && (a[12] == 172) != (b[12] == 172) then a[12] == 172
            else if IsMapped(a) && IsMapped(b) && (a[12] == 10) != (b[12] == 10) then a[12] == 10
            else Earlier(a, b)
  {
    hide Value, Earlier;
    ValuesCompareByOctet(a, b);
  }

  // ---------- Sorting ----------

  lemma SortedByKey(s: seq<IPNet>)
    ensures Sorted(s) <==> forall i, j :: 0 <= i < j < |s| ==> Key(s[i].ip) <= Key(s[j].ip)
  {
    forall i, j | 0 <= i < j < |s|
      ensures !Less(s[j].ip, s[i].ip) <==> Key(s[i].ip) <= Key(s[j].ip)
    {
      LessComparesKeys(s[j].ip, s[i].ip);
    }
  }

  lemma SameElements(s: seq<IPNet>, t: seq<IPNet>)
    requires multiset(s) == multiset(t)
    ensures |s| == |t|
    ensures forall x :: x in s <==> x in t
  {
    assert |multiset(s)| == |s| && |multiset(t)| == |t|;
    assert forall x :: x in s <==> x in multiset(s);
    assert forall x :: x in t <==> x in multiset(t);
  }

  lemma DistinctPermutation(s: seq<IPNet>, t: seq<IPNet>)
    requires multiset(s) == multiset(t) && DistinctIPs(s)
    ensures DistinctIPs(t)
  {
    SameElements(s, t);
    forall i, j | 0 <= i < j < |t|
      ensures t[i].ip != t[j].ip
    {
      if t[i].ip == t[j].ip {
        assert t[i] in s && t[j] in s;
        assert t[i] == t[j];
        TwoPlaces(t, i, j);
        AtMostOnce(s, t[i]);
      }
    }
  }

  lemma TwoPlaces(t: seq<IPNet>, i: nat, j: nat)
    requires i < j < |t| && t[i] == t[j]
    ensures multiset(t)[t[i]] >= 2
  {
    assert t == t[..j] + [t[j]] + t[j + 1..];
    assert t[i] == t[..j][i];
    assert t[i] in multiset(t[..j]);
  }

  lemma {:induction false} AtMostOnce(s: seq<IPNet>, x: IPNet)
    requires DistinctIPs(s)
    ensures multiset(s)[x] <= 1
  {
    if |s| > 0 {
      var n := |s| - 1;
      assert s == s[..n] + [s[n]];
      AtMostOnce(s[..n], x);
      if x == s[n] {
        assert x !in s[..n];
      }
    }
  }

  /** The last entry of a sorted list is one with the largest key. */
  lemma LastIsLargest(s: seq<IPNet>, t: seq<IPNet>, n: nat)
    requires IsSorting(s, t) && n + 1 == |t|
    ensures forall x :: x in s ==> Key(x.ip) <= Key(t[n].ip)
  {
    SameElements(s, t);
    SortedByKey(t);
  }

  lemma DropLast(t: seq<IPNet>, n: nat)
    requires n + 1 == |t|
    ensures multiset(t[..n]) == multiset(t) - multiset{t[n]}
    ensures Sorted(t) ==> Sorted(t[..n])
    ensures DistinctIPs(t) ==> DistinctIPs(t[..n])
  {
    assert t == t[..n] + [t[n]];
  }

  /** When no two addresses are equal, sorting has one possible result,
      whatever algorithm produced it. */
  lemma {:induction false} SortingIsUnique(s: seq<IPNet>, t: seq<IPNet>, u: seq<IPNet>)
    requires DistinctIPs(s) && IsSorting(s, t) && IsSorting(s, u)
    ensures t == u
    decreases |t|
  {
    SameElements(s, t);
    SameElements(s, u);
    if |t| > 0 {
      var n := |t| - 1;
      DistinctPermutation(s, t);
      assert t[n] == u[n] by {
        LastIsLargest(s, t, n);
        LastIsLargest(s, u, n);
        assert t[n] in s && u[n] in s;
        KeyInjective(t[n].ip, u[n].ip);
        assert u[n] in t;
        assert forall i :: 0 <= i < n ==> t[i].ip != t[n].ip;
      }
      DropLast(t, n);
      DropLast(u, n);
      SortingIsUnique(t[..n], t[..n], u[..n]);
      assert t == t[..n] + [t[n]] && u == u[..n] + [u[n]];
    }
  }
}

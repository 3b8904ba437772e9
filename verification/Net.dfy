/**
 Addresses, networks and the private-first order of net.go.

 An address is in the 16-byte form that net.ParseIP produces.  IPv4 addresses
 appear in it as IPv4-mapped addresses (section 2.5.5.2 of RFC 4291).  A mask
 may have any length: net.ParseCIDR makes 4-byte masks for IPv4 networks.
 */
module Net {
  import opened Wrappers

  type Byte = b: int | 0 <= b < 256

  type Address = a: seq<Byte> | |a| == 16 witness seq(16, i => 0)

  datatype IPNet = IPNet(ip: Address, mask: seq<Byte>)

  // ---------- The comparison ----------

  /** The number a byte string denotes, most significant byte first. */
  function Value(bytes: seq<Byte>): nat {
    if |bytes| == 0 then 0 else Value(bytes[..|bytes| - 1]) * 256 + bytes[|bytes| - 1]
  }

  /** Whether the address has a 4-byte form. */
  predicate IsMapped(a: Address) {
    (forall i :: 0 <= i < 10 ==> a[i] == 0) && a[10] == 255 && a[11] == 255
  }

  /** The comparison that address lists are sorted with, branch by branch. */
  predicate Less(l: Address, r: Address) {
    var smaller := Value(l) < Value(r);
    if IsMapped(l) && IsMapped(r) then
      var fl, fr := l[12], r[12];
      if fl == fr then smaller
      else if fl == 192 then true
      else if fl == 172 then fr != 192
      else if fl == 10 then fr != 192 && fr != 172
      else if fr == 192 || fr == 172 || fr == 10 then false
      else smaller
    else
      smaller
  }

  // ---------- Masked containment ----------

  /** Bitwise and of two numbers. */
  function And(x: nat, m: nat): nat
    decreases x
  {
    if x == 0 || m == 0 then 0
    else 2 * And(x / 2, m / 2) + (if x % 2 == 1 && m % 2 == 1 then 1 else 0)
  }

  /** The shortest form of an address: 4 bytes if it is mapped, 16 otherwise. */
  function Shortest(a: Address): (s: seq<Byte>)
    ensures |s| == 4 || |s| == 16
  {
    if IsMapped(a) then a[12..] else a
  }

  /** The mask to apply to the shortest form of the network number, if it fits. */
  function MaskFor(n: IPNet): (m: Option<seq<Byte>>)
    ensures m.Some? ==> |m.value| == |Shortest(n.ip)|
  {
    var size := |Shortest(n.ip)|;
    if |n.mask| == size then Some(n.mask)
    else if |n.mask| == 16 && size == 4 then Some(n.mask[12..])
    else None
  }

  /** Whether the network contains the address: both have the same shortest
      length and agree on every masked byte. */
  predicate Contains(n: IPNet, ip: Address) {
    var number, x := Shortest(n.ip), Shortest(ip);
    MaskFor(n).Some? && |number| == |x| &&
    forall i :: 0 <= i < |x| ==> And(number[i], MaskFor(n).value[i]) == And(x[i], MaskFor(n).value[i])
  }

  // ---------- The first match of two lists ----------

  /** The first of the addresses inside the network. */
  function FirstInside(net: IPNet, addrs: seq<IPNet>): Option<IPNet> {
    if |addrs| == 0 then None
    else if Contains(net, addrs[0].ip) then Some(addrs[0])
    else FirstInside(net, addrs[1..])
  }

  /** The first address inside the first network that contains any of them. */
  function Match(nets: seq<IPNet>, addrs: seq<IPNet>): Option<IPNet> {
    if |nets| == 0 then None
    else if FirstInside(nets[0], addrs).Some? then FirstInside(nets[0], addrs)
    else Match(nets[1..], addrs)
  }

  /** Whether some network contains some address. */
  ghost predicate Reachable(nets: seq<IPNet>, addrs: seq<IPNet>) {
    exists a, b :: a in nets && b in addrs && Contains(a, b.ip)
  }

  // ---------- Sorted lists ----------

  predicate Sorted(s: seq<IPNet>) {
    forall i, j :: 0 <= i < j < |s| ==> !Less(s[j].ip, s[i].ip)
  }

  /** t is a result that sorting s may have. */
  predicate IsSorting(s: seq<IPNet>, t: seq<IPNet>) {
    multiset(s) == multiset(t) && Sorted(t)
  }

  predicate DistinctIPs(s: seq<IPNet>) {
    forall i, j :: 0 <= i < j < |s| ==> s[i].ip != s[j].ip
  }
}

/**
 Masked containment means membership in an aligned block of addresses
 (section 3.1 of RFC 4632).
 */
module NetBlocks {
  import opened Wrappers
  import opened Net

  /** x without its m lowest bits. */
  function Shift(x: nat, m: nat): nat {
    if m == 0 then x else Shift(x / 2, m - 1)
  }

  /** x with its m lowest bits cleared. */
  function Clear(x: nat, m: nat): nat {
    if m == 0 then x else 2 * Clear(x / 2, m - 1)
  }

  /** The number of n bits whose m lowest bits are clear and the others set. */
  function MaskOf(n: nat, m: nat): nat
    requires m <= n
  {
    if n == 0 then 0 else if m == 0 then 2 * MaskOf(n - 1, 0) + 1 else 2 * MaskOf(n - 1, m - 1)
  }

  /** Masking a number of n bits clears its low bits. */
  lemma {:induction false} AndMask(x: nat, n: nat, m: nat)
    requires m <= n && Shift(x, n) == 0
    ensures And(x, MaskOf(n, m)) == Clear(x, m)
  {
    if n > 0 && x > 0 {
      var m' := if m == 0 then 0 else m - 1;
      var k := MaskOf(n - 1, m');
      AndMask(x / 2, n - 1, m');
      AndTwice(x, k);
      assert MaskOf(n, m) == 2 * k + (if m == 0 then 1 else 0);
    } else {
      ClearZero(m);
    }
  }

  /** And works bit by bit. */
  lemma AndTwice(x: nat, k: nat)
    ensures And(x, 2 * k) == 2 * And(x / 2, k)
    ensures And(x, 2 * k + 1) == 2 * And(x / 2, k) + x % 2
  {
    assert 2 * k / 2 == k && (2 * k + 1) / 2 == k;
  }

  lemma {:induction false} ClearZero(m: nat)
    ensures Clear(0, m) == 0
  {
    if m > 0 { ClearZero(m - 1); }
  }

  lemma {:induction false} ClearComparesShifts(x: nat, y: nat, m: nat)
    ensures Clear(x, m) == Clear(y, m) <==> Shift(x, m) == Shift(y, m)
  {
    if m > 0 { ClearComparesShifts(x / 2, y / 2, m - 1); }
  }

  /** The n lowest bits of x. */
  function Low(x: nat, n: nat): nat {
    if n == 0 then 0 else x % 2 + 2 * Low(x / 2, n - 1)
  }

  /** Numbers are equal when their low bits are and the rest is. */
  lemma {:induction false} HighAndLow(x: nat, y: nat, n: nat)
    ensures x == y <==> Shift(x, n) == Shift(y, n) && Low(x, n) == Low(y, n)
  {
    if n > 0 { HighAndLow(x / 2, y / 2, n - 1); }
  }

  /** So are numbers without their m lowest bits. */
  lemma {:induction false} ShiftsAgree(x: nat, y: nat, n: nat, m: nat)
    requires m <= n
    ensures Shift(x, m) == Shift(y, m) <==>
            Shift(x, n) == Shift(y, n) && Shift(Low(x, n), m) == Shift(Low(y, n), m)
  {
    if m == 0 {
      HighAndLow(x, y, n);
    } else {
      ShiftsAgree(x / 2, y / 2, n - 1, m - 1);
      assert Low(x, n) / 2 == Low(x / 2, n - 1) && Low(y, n) / 2 == Low(y / 2, n - 1);
    }
  }

  lemma {:induction false} ShiftTwice(x: nat, m: nat, n: nat)
    ensures Shift(x, m + n) == Shift(Shift(x, m), n)
  {
    if m > 0 { ShiftTwice(x / 2, m - 1, n); }
  }

  // ---------- Bytes ----------

  /** The number v with the n lowest bits of b behind it. */
  function Join(v: nat, b: nat, n: nat): nat {
    if n == 0 then v else b % 2 + 2 * Join(v, b / 2, n - 1)
  }

  lemma {:induction false} JoinSplits(v: nat, b: nat, n: nat)
    ensures Shift(Join(v, b, n), n) == v && Low(Join(v, b, n), n) == Low(b, n)
  {
    if n > 0 { JoinSplits(v, b / 2, n - 1); }
  }

  /** A byte behind a number. */
  lemma JoinByte(v: nat, b: Byte)
    ensures Join(v, b, 8) == v * 256 + b
  {
    assert Join(v, b / 128, 1) == 2 * v + b / 128;
    assert Join(v, b / 64, 2) == 4 * v + b / 64 by { assert b / 64 / 2 == b / 128; }
    assert Join(v, b / 32, 3) == 8 * v + b / 32 by { assert b / 32 / 2 == b / 64; }
    assert Join(v, b / 16, 4) == 16 * v + b / 16 by { assert b / 16 / 2 == b / 32; }
    assert Join(v, b / 8, 5) == 32 * v + b / 8 by { assert b / 8 / 2 == b / 16; }
    assert Join(v, b / 4, 6) == 64 * v + b / 4 by { assert b / 4 / 2 == b / 8; }
    assert Join(v, b / 2, 7) == 128 * v + b / 2 by { assert b / 2 / 2 == b / 4; }
  }

  lemma ByteIsLow(v: nat, b: Byte)
    ensures Shift(v * 256 + b, 8) == v && Low(v * 256 + b, 8) == Low(b, 8)
  {
    JoinSplits(v, b, 8);
    JoinByte(v, b);
  }

  /** A byte is its own 8 lowest bits. */
  lemma LowOfByte(b: Byte)
    ensures Low(b, 8) == b && Shift(b, 8) == 0
  {
    ByteIsLow(0, b);
    JoinByte(0, b);
    LowIsJoin(b, 8);
  }

  lemma {:induction false} LowIsJoin(b: nat, n: nat)
    ensures Low(b, n) == Join(0, b, n)
  {
    if n > 0 { LowIsJoin(b / 2, n - 1); }
  }

  /** Comparing a number and a byte behind it without their low bits. */
  lemma ShiftByte(v: nat, b: Byte, w: nat, c: Byte, m: nat)
    ensures m <= 8 ==> (Shift(v * 256 + b, m) == Shift(w * 256 + c, m) <==> v == w && Shift(b, m) == Shift(c, m))
    ensures m >= 8 ==> Shift(v * 256 + b, m) == Shift(v, m - 8)
    ensures Shift(b, 8) == 0
  {
    hide Shift, Low;
    ByteIsLow(v, b);
    ByteIsLow(w, c);
    LowOfByte(b);
    LowOfByte(c);
    if m <= 8 {
      ShiftsAgree(v * 256 + b, w * 256 + c, 8, m);
    }
    if m >= 8 {
      ShiftTwice(v * 256 + b, 8, m - 8);
    }
  }

  function Pow2(n: nat): nat {
    if n == 0 then 1 else 2 * Pow2(n - 1)
  }

  lemma Pow2Of8()
    ensures Pow2(8) == 256
  {
    assert Pow2(4) == 16;
    assert Pow2(8) == 16 * Pow2(4);
  }

  lemma {:induction false} MaskBound(n: nat, m: nat)
    requires m <= n
    ensures MaskOf(n, m) < Pow2(n)
  {
    if n > 0 { MaskBound(n - 1, if m == 0 then 0 else m - 1); }
  }

  function ByteMask(m: nat): Byte
    requires m <= 8
  {
    MaskBound(8, m);
    Pow2Of8();
    MaskOf(8, m)
  }

  /** How many of the bits of byte i a prefix of p bits leaves free. */
  function FreeBits(p: nat, i: nat): (m: nat)
    ensures m <= 8
  {
    if p <= 8 * i then 8 else if p >= 8 * (i + 1) then 0 else 8 * (i + 1) - p
  }

  /** The mask of the given size whose p highest bits are set. */
  function PrefixMask(size: nat, p: nat): (mask: seq<Byte>)
    requires p <= 8 * size
    ensures |mask| == size
  {
    seq(size, i requires 0 <= i < size => ByteMask(FreeBits(p, i)))
  }

  /** Masking a byte compares the bits that the prefix does not leave free. */
  lemma MaskedByteAgrees(x: Byte, y: Byte, m: nat)
    requires m <= 8
    ensures And(x, ByteMask(m)) == And(y, ByteMask(m)) <==> Shift(x, m) == Shift(y, m)
  {
    ShiftByte(0, x, 0, x, 8);
    ShiftByte(0, y, 0, y, 8);
    AndMask(x, 8, m);
    AndMask(y, 8, m);
    ClearComparesShifts(x, y, m);
  }

  // ---------- Addresses ----------

  /** Two byte strings agree on the first p bits, byte by byte. */
  predicate SamePrefix(x: seq<Byte>, y: seq<Byte>, p: nat) {
    |x| == |y| && forall i :: 0 <= i < |x| ==> Shift(x[i], FreeBits(p, i)) == Shift(y[i], FreeBits(p, i))
  }

  lemma NoShift(x: nat)
    ensures Shift(x, 0) == x
  {
  }

  /** They do exactly when they denote numbers of one block. */
  lemma {:induction false} SamePrefixIsBlock(x: seq<Byte>, y: seq<Byte>, p: nat)
    requires |x| == |y| && p <= 8 * |x|
    ensures SamePrefix(x, y, p) <==> Shift(Value(x), 8 * |x| - p) == Shift(Value(y), 8 * |x| - p)
  {
    hide Shift;
    if |x| > 0 {
      var n := |x| - 1;
      var x', y' := x[..n], y[..n];
      var m := 8 * |x| - p;
      ShiftByte(Value(x'), x[n], Value(y'), y[n], m);
      ShiftByte(Value(y'), y[n], Value(x'), x[n], m);
      if m >= 8 {
        SamePrefixIsBlock(x', y', p);
        assert FreeBits(p, n) == 8;
        assert SamePrefix(x, y, p) <==> SamePrefix(x', y', p);
      } else {
        SamePrefixIsBlock(x', y', 8 * n);
        assert FreeBits(p, n) == m;
        assert forall i :: 0 <= i < n ==> FreeBits(p, i) == FreeBits(8 * n, i) == 0;
        NoShift(Value(x'));
        NoShift(Value(y'));
        assert SamePrefix(x, y, p) <==> SamePrefix(x', y', 8 * n) && Shift(x[n], m) == Shift(y[n], m);
      }
    }
  }

  /** A network with a prefix mask contains exactly the addresses of its own
      length that lie in its aligned block. */
  lemma ContainsIsBlock(n: IPNet, p: nat, ip: Address)
    requires p <= 8 * |Shortest(n.ip)| && n.mask == PrefixMask(|Shortest(n.ip)|, p)
    ensures Contains(n, ip) <==>
            (IsMapped(ip) <==> IsMapped(n.ip)) &&
            var free := 8 * |Shortest(n.ip)| - p;
            Shift(Value(Shortest(ip)), free) == Shift(Value(Shortest(n.ip)), free)
  {
    hide And, Shift, Value, ByteMask, FreeBits;
    var number, x := Shortest(n.ip), Shortest(ip);
    if |x| == |number| {
      SamePrefixIsBlock(number, x, p);
      forall i | 0 <= i < |x|
        ensures And(number[i], n.mask[i]) == And(x[i], n.mask[i]) <==>
                Shift(number[i], FreeBits(p, i)) == Shift(x[i], FreeBits(p, i))
      {
        MaskedByteAgrees(number[i], x[i], FreeBits(p, i));
      }
      assert MaskFor(n) == Some(n.mask);
    }
  }

  /** On a 4-byte network number a 16-byte mask acts by its last 4 bytes; a mask
      that fits neither length makes the network empty. */
  lemma OtherMasks(n: IPNet, p: nat, ip: Address)
    requires p <= 32
    ensures IsMapped(n.ip) && n.mask == PrefixMask(16, 96 + p) ==>
              (Contains(n, ip) <==> Contains(IPNet(n.ip, PrefixMask(4, p)), ip))
    ensures |n.mask| != |Shortest(n.ip)| && !(IsMapped(n.ip) && |n.mask| == 16) ==> !Contains(n, ip)
  {
    hide And, ByteMask, Value;
    if IsMapped(n.ip) && n.mask == PrefixMask(16, 96 + p) {
      assert forall i :: 0 <= i < 4 ==> FreeBits(96 + p, 12 + i) == FreeBits(p, i);
      assert n.mask[12..] == PrefixMask(4, p);
    }
  }

  // ---------- Containment on the 16 bytes of an address ----------

  lemma MappedPrefix(a: Address, b: Address, p: nat)
    requires p <= 32 && IsMapped(a)
    ensures SamePrefix(a, b, 96 + p) <==> IsMapped(b) && SamePrefix(a[12..], b[12..], p)
  {
    hide Shift;
    forall i | 0 <= i < 12
      ensures Shift(a[i], FreeBits(96 + p, i)) == Shift(b[i], FreeBits(96 + p, i)) <==> a[i] == b[i]
    {
      NoShift(a[i]);
      NoShift(b[i]);
    }
    assert forall i :: 0 <= i < 4 ==> FreeBits(96 + p, 12 + i) == FreeBits(p, i);
    if SamePrefix(a, b, 96 + p) {
      forall i | 0 <= i < 4
        ensures Shift(a[12..][i], FreeBits(p, i)) == Shift(b[12..][i], FreeBits(p, i))
      {
        assert a[12..][i] == a[12 + i] && b[12..][i] == b[12 + i];
      }
    }
    if IsMapped(b) && SamePrefix(a[12..], b[12..], p) {
      forall i | 12 <= i < 16
        ensures Shift(a[i], FreeBits(96 + p, i)) == Shift(b[i], FreeBits(96 + p, i))
      {
        assert a[12..][i - 12] == a[i] && b[12..][i - 12] == b[i];
      }
    }
  }

  /** In numbers of 128 bits: an IPv4 network with a prefix of p bits contains the
      addresses that share all but the 32 - p lowest bits with it, the mapped
      prefix included; an IPv6 network those that share all but the 128 - p
      lowest bits and are not mapped. */
  lemma ContainsOnNumbers(n: IPNet, p: nat, ip: Address)
    ensures IsMapped(n.ip) && p <= 32 && n.mask == PrefixMask(4, p) ==>
              (Contains(n, ip) <==> Shift(Value(ip), 32 - p) == Shift(Value(n.ip), 32 - p))
    ensures !IsMapped(n.ip) && p <= 128 && n.mask == PrefixMask(16, p) ==>
              (Contains(n, ip) <==> !IsMapped(ip) && Shift(Value(ip), 128 - p) == Shift(Value(n.ip), 128 - p))
  {
    hide And, Shift, Value, ByteMask, FreeBits, SamePrefix, Contains, MaskFor, PrefixMask;
    if IsMapped(n.ip) && p <= 32 && n.mask == PrefixMask(4, p) {
      ContainsIsBlock(n, p, ip);
      MappedPrefix(n.ip, ip, p);
      SamePrefixIsBlock(n.ip, ip, 96 + p);
      SamePrefixIsBlock(n.ip[12..], ip[12..], p);
    }
    if !IsMapped(n.ip) && p <= 128 && n.mask == PrefixMask(16, p) {
      ContainsIsBlock(n, p, ip);
    }
  }

  // ---------- Any mask, bit by bit ----------

  /** Bit j of x, counted from the lowest. */
  function Bit(x: nat, j: nat): nat {
    if j == 0 then x % 2 else Bit(x / 2, j - 1)
  }

  /** x and y agree in each of the n lowest bits that m sets. */
  predicate BitsAgree(x: nat, y: nat, m: nat, n: nat) {
    forall j :: 0 <= j < n && Bit(m, j) == 1 ==> Bit(x, j) == Bit(y, j)
  }

  lemma LowestBit(x: nat, y: nat, m: nat, n: nat)
    requires n > 0
    ensures BitsAgree(x, y, m, n) <==> (m % 2 == 1 ==> x % 2 == y % 2) && BitsAgree(x / 2, y / 2, m / 2, n - 1)
  {
    assert Bit(m, 0) == m % 2 && Bit(x, 0) == x % 2 && Bit(y, 0) == y % 2;
    assert forall j :: 0 < j < n ==>
      Bit(m, j) == Bit(m / 2, j - 1) && Bit(x, j) == Bit(x / 2, j - 1) && Bit(y, j) == Bit(y / 2, j - 1);
    if BitsAgree(x, y, m, n) {
      forall j | 0 <= j < n - 1 && Bit(m / 2, j) == 1
        ensures Bit(x / 2, j) == Bit(y / 2, j)
      {
        assert Bit(m, j + 1) == 1;
      }
    }
  }

  lemma {:induction false} AndComparesBits(x: nat, y: nat, m: nat, n: nat)
    requires Shift(m, n) == 0
    ensures And(x, m) == And(y, m) <==> BitsAgree(x, y, m, n)
  {
    hide BitsAgree;
    if n > 0 {
      AndTwice(x, m / 2);
      AndTwice(y, m / 2);
      assert m == 2 * (m / 2) + m % 2;
      AndComparesBits(x / 2, y / 2, m / 2, n - 1);
      LowestBit(x, y, m, n);
    } else {
      assert BitsAgree(x, y, m, 0) by { NoBits(x, y, m); }
    }
  }

  lemma NoBits(x: nat, y: nat, m: nat)
    ensures BitsAgree(x, y, m, 0)
  {
  }

  /** Octet i of an address agrees with that of the network in every bit that the
      mask's octet for it sets. */
  predicate OctetAgrees(x: Byte, y: Byte, mask: Byte) {
    BitsAgree(x, y, mask, 8)
  }

  /** For every network and every mask: a mask of 4 bytes speaks of the last 4
      octets of IPv4 addresses, one of 16 bytes of the octets it stands for, save
      that an IPv4 network compares its last 4 only; any other mask matches
      nothing. */
  lemma ContainsBitByBit(n: IPNet, ip: Address)
    ensures Contains(n, ip) <==>
            (IsMapped(ip) <==> IsMapped(n.ip)) &&
            (|n.mask| == 16 || (|n.mask| == 4 && IsMapped(n.ip))) &&
            forall i :: (if IsMapped(n.ip) then 12 else 0) <= i < 16 ==>
              OctetAgrees(n.ip[i], ip[i], n.mask[|n.mask| - 16 + i])
  {
    hide And, Value, Shift, OctetAgrees;
    forall x: Byte, y: Byte, m: Byte
      ensures And(x, m) == And(y, m) <==> OctetAgrees(x, y, m)
    {
      OctetsByBits(x, y, m);
    }
    if IsMapped(n.ip) && IsMapped(ip) && (|n.mask| == 16 || |n.mask| == 4) {
      var m := MaskFor(n).value;
      assert forall i :: 0 <= i < 4 ==>
        n.ip[12..][i] == n.ip[12 + i] && ip[12..][i] == ip[12 + i] && m[i] == n.mask[|n.mask| - 16 + 12 + i];
      assert forall i :: 12 <= i < 16 ==>
        n.ip[12..][i - 12] == n.ip[i] && ip[12..][i - 12] == ip[i] && m[i - 12] == n.mask[|n.mask| - 16 + i];
    }
  }

  lemma OctetsByBits(x: Byte, y: Byte, m: Byte)
    ensures And(x, m) == And(y, m) <==> OctetAgrees(x, y, m)
  {
    hide And, Shift, Low, BitsAgree;
    LowOfByte(m);
    AndComparesBits(x, y, m, 8);
  }
}

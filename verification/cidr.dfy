/** IPv4 prefixes as (base, length) pairs (section 3.1 of RFC 4632) and the
    arithmetic that numbers their subnets and hosts. */
module Cidr {

  function Pow2(n: nat): (r: nat)
    ensures r >= 1
  {
    if n == 0 then 1 else 2 * Pow2(n - 1)
  }

  const TWO_32: nat := 0x1_0000_0000

  lemma {:induction false} Pow2Adds(a: nat, b: nat)
    ensures Pow2(a + b) == Pow2(a) * Pow2(b)
  {
    if a > 0 {
      Pow2Adds(a - 1, b);
      assert Pow2(a + b) == 2 * (Pow2(a - 1) * Pow2(b)) == (2 * Pow2(a - 1)) * Pow2(b);
    }
  }

  lemma FourMore(n: nat)
    ensures Pow2(n + 4) == 16 * Pow2(n)
  {
    assert Pow2(n + 2) == 4 * Pow2(n);
  }

  lemma Pow2Of32()
    ensures Pow2(32) == TWO_32
  {
    FourMore(0);
    FourMore(4);
    FourMore(8);
    FourMore(12);
    FourMore(16);
    FourMore(20);
    FourMore(24);
    FourMore(28);
  }

  // The address of a network: the low 32 - len bits of the base are zero.
  datatype Prefix = Prefix(base: nat, len: nat)

  function Size(p: Prefix): nat
    requires p.len <= 32
  {
    Pow2(32 - p.len)
  }

  predicate Aligned(address: int, size: nat)
    requires size > 0
  {
    address % size == 0
  }

  predicate Valid(p: Prefix) {
    p.len <= 32 && p.base < TWO_32 && Aligned(p.base, Size(p))
  }

  predicate Contains(p: Prefix, address: int)
    requires p.len <= 32
  {
    p.base <= address < p.base + Size(p)
  }

  ghost predicate Within(inner: Prefix, outer: Prefix)
    requires inner.len <= 32 && outer.len <= 32
  {
    forall a :: Contains(inner, a) ==> Contains(outer, a)
  }

  ghost predicate Disjoint(p: Prefix, q: Prefix)
    requires p.len <= 32 && q.len <= 32
  {
    forall a :: !(Contains(p, a) && Contains(q, a))
  }

  // Panics: the Go runtime rejects a negative shift count.
  datatype Outcome<+T> = Ok(value: T) | Error(message: string) | Panics

  /** The sum is kept in 64 bits and then truncated to 32. */
  function Truncated(address: int): nat {
    address % TWO_32
  }

  // Where the k-th block of 2^bits addresses starts.
  function Offset(k: int, bits: nat): int {
    k * Pow2(bits)
  }

  function CIDRSubnet(p: Prefix, newbits: int, netnum: int): Outcome<Prefix>
    requires Valid(p)
  {
    var len := p.len + newbits;
    if len > 32 then Error("prefix extension is too large")
    else if newbits < 0 then Panics
    else if netnum >= Pow2(newbits) then Error("subnet number exceeds max subnets")
    else Ok(Prefix(Truncated(p.base + Offset(netnum, 32 - len)), len))
  }

  /** A negative host number counts from the end. */
  function CIDRHost(p: Prefix, hostnum: int): Outcome<nat>
    requires Valid(p)
  {
    if hostnum < 0 then
      if -hostnum > Size(p) then Error("host number exceeds max hosts")
      else Ok(Truncated(p.base + (Size(p) + hostnum)))
    else if hostnum >= Size(p) then Error("host number exceeds max hosts")
    else Ok(Truncated(p.base + hostnum))
  }

  // ---- Products, one fact at a time ------------------------------------------------

  lemma MulMonotone(a: int, b: int, c: nat)
    requires a <= b
    ensures a * c <= b * c
  {
  }

  lemma OneMore(k: int, s: int)
    ensures (k + 1) * s == k * s + s
  {
  }

  // Multiples below n * s end at or before it.
  lemma BelowEnds(k: int, n: int, s: nat)
    requires k * s < n * s
    ensures k < n && k * s + s <= n * s
  {
    if k >= n { MulMonotone(n, k, s); }
    MulMonotone(k + 1, n, s);
    OneMore(k, s);
  }

  lemma IsMultiple(a: int, m: nat) returns (q: int)
    requires m > 0 && a % m == 0
    ensures a == q * m
  {
    q := a / m;
  }

  lemma MultipleMod(k: int, m: nat)
    requires m > 0
    ensures (k * m) % m == 0
  {
    var q, r := (k * m) / m, (k * m) % m;
    assert k * m == q * m + r;
    Remainder(k, q, r, m);
  }

  lemma Remainder(k: int, q: int, r: int, m: nat)
    requires k * m == q * m + r && 0 <= r < m
    ensures r == 0 && k == q
  {
    OneMore(q, m);
    if k > q { MulMonotone(q + 1, k, m); }
    if k < q { MulMonotone(k, q, m); BelowEnds(k - 1, k, m); }
  }

  lemma Associates(a: int, b: int, c: int)
    ensures a * (b * c) == (a * b) * c
  {
  }

  lemma Distributes(a: int, b: int, c: int)
    ensures (a + b) * c == a * c + b * c
  {
  }

  // ---- Partition ---------------------------------------------------------------

  lemma Fits32(p: Prefix)
    requires Valid(p)
    ensures p.base + Size(p) <= TWO_32
  {
    Pow2Of32();
    Pow2Adds(p.len, 32 - p.len);
    hide Pow2;
    var q := IsMultiple(p.base, Size(p));
    BelowEnds(q, Pow2(p.len), Size(p));
  }

  // The n parts of size s of a range that starts at a multiple of n * s.
  lemma Part(base: nat, n: nat, s: nat, k: nat)
    requires s > 0 && n * s > 0 && base % (n * s) == 0 && k < n
    ensures (base + k * s) % s == 0
    ensures k * s + s <= n * s
  {
    var q := IsMultiple(base, n * s);
    Associates(q, n, s);
    Distributes(q * n, k, s);
    MultipleMod(q * n + k, s);
    OneMore(k, s);
    MulMonotone(k + 1, n, s);
  }

  lemma PartOf(p: Prefix, newbits: nat, netnum: nat)
    requires Valid(p) && p.len + newbits <= 32 && netnum < Pow2(newbits)
    ensures var bits := 32 - (p.len + newbits);
            && Aligned(p.base + Offset(netnum, bits), Pow2(bits))
            && 0 <= Offset(netnum, bits) && Offset(netnum, bits) + Pow2(bits) <= Size(p)
  {
    var bits := 32 - (p.len + newbits);
    Pow2Adds(newbits, bits);
    hide Pow2;
    Part(p.base, Pow2(newbits), Pow2(bits), netnum);
    MulMonotone(0, netnum, Pow2(bits));
  }

  /** Every numbered subnet exists, is a proper network, lies inside its parent, and
      no address wraps around. */
  lemma SubnetIsInside(p: Prefix, newbits: nat, netnum: nat)
    requires Valid(p) && p.len + newbits <= 32 && netnum < Pow2(newbits)
    ensures CIDRSubnet(p, newbits, netnum).Ok?
    ensures var sub := CIDRSubnet(p, newbits, netnum).value;
            && sub.len == p.len + newbits
            && sub.base == p.base + Offset(netnum, 32 - sub.len)
            && Valid(sub) && Within(sub, p)
  {
    hide Pow2, Offset, Aligned;
    PartOf(p, newbits, netnum);
    Fits32(p);
  }

  lemma PartsApart(i: nat, j: nat, bits: nat)
    requires i < j
    ensures Offset(i, bits) + Pow2(bits) <= Offset(j, bits)
  {
    hide Pow2;
    OneMore(i, Pow2(bits));
    MulMonotone(i + 1, j, Pow2(bits));
  }

  /** Two different subnets of one prefix share no address. */
  lemma SubnetsAreDisjoint(p: Prefix, newbits: nat, i: nat, j: nat)
    requires Valid(p) && p.len + newbits <= 32 && i < Pow2(newbits) && j < Pow2(newbits) && i != j
    ensures CIDRSubnet(p, newbits, i).Ok? && CIDRSubnet(p, newbits, j).Ok?
    ensures var a, b := CIDRSubnet(p, newbits, i).value, CIDRSubnet(p, newbits, j).value;
            a.len <= 32 && b.len <= 32 && Disjoint(a, b)
  {
    hide Pow2, Offset, Valid, CIDRSubnet, Within;
    SubnetIsInside(p, newbits, i);
    SubnetIsInside(p, newbits, j);
    PartsApart(if i < j then i else j, if i < j then j else i, 32 - (p.len + newbits));
  }

  /** The number of the subnet an address lies in. */
  function SubnetOf(p: Prefix, newbits: nat, address: nat): int
    requires p.len + newbits <= 32
  {
    (address - p.base) / Pow2(32 - (p.len + newbits))
  }

  lemma WhichPart(d: nat, n: nat, s: nat)
    requires s > 0 && d < n * s
    ensures 0 <= d / s < n && (d / s) * s <= d < (d / s) * s + s
  {
    var i := d / s;
    assert d == i * s + d % s;
    BelowEnds(i, n, s);
    if i < 0 { MulMonotone(i, -1, s); }
  }

  /** The subnets cover their parent: each address lies in the subnet computed, and
      since the subnets are disjoint in no other. */
  lemma SubnetsCover(p: Prefix, newbits: nat, address: nat)
    requires Valid(p) && p.len + newbits <= 32 && Contains(p, address)
    ensures var i := SubnetOf(p, newbits, address);
            && 0 <= i < Pow2(newbits)
            && CIDRSubnet(p, newbits, i).Ok?
            && CIDRSubnet(p, newbits, i).value.len <= 32
            && Contains(CIDRSubnet(p, newbits, i).value, address)
  {
    WhichBlock(p, newbits, address);
    BlockContains(p, newbits, SubnetOf(p, newbits, address), address);
  }

  lemma BlockContains(p: Prefix, newbits: nat, i: int, address: nat)
    requires Valid(p) && p.len + newbits <= 32 && 0 <= i < Pow2(newbits)
    requires var bits := 32 - (p.len + newbits);
             Offset(i, bits) <= address - p.base < Offset(i, bits) + Pow2(bits)
    ensures CIDRSubnet(p, newbits, i).Ok? && CIDRSubnet(p, newbits, i).value.len <= 32
    ensures Contains(CIDRSubnet(p, newbits, i).value, address)
  {
    SubnetIsInside(p, newbits, i);
    hide Pow2, Offset, CIDRSubnet, Valid, Within;
  }

  lemma WhichBlock(p: Prefix, newbits: nat, address: nat)
    requires Valid(p) && p.len + newbits <= 32 && Contains(p, address)
    ensures var i, bits := SubnetOf(p, newbits, address), 32 - (p.len + newbits);
            0 <= i < Pow2(newbits) && Offset(i, bits) <= address - p.base < Offset(i, bits) + Pow2(bits)
  {
    Pow2Adds(newbits, 32 - (p.len + newbits));
    hide Pow2;
    WhichPart(address - p.base, Pow2(newbits), Pow2(32 - (p.len + newbits)));
  }

  // ---- Hosts --------------------------------------------------------------------

  /** A host address lies in its network, and different host numbers give different addresses. */
  lemma HostIsInside(p: Prefix, hostnum: nat)
    requires Valid(p)
    ensures CIDRHost(p, hostnum).Ok? <==> hostnum < Size(p)
    ensures hostnum < Size(p) ==> CIDRHost(p, hostnum) == Ok(p.base + hostnum) && Contains(p, p.base + hostnum)
  {
    Fits32(p);
  }

  /** Counting from the end: host -k is the k-th address before the end of the network. */
  lemma HostFromEnd(p: Prefix, k: nat)
    requires Valid(p) && k > 0
    ensures CIDRHost(p, 0 - k).Ok? <==> k <= Size(p)
    ensures k <= Size(p) ==> CIDRHost(p, 0 - k) == CIDRHost(p, Size(p) - k)
  {
    Fits32(p);
  }
}

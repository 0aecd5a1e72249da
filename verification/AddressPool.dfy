/** The IPv4 pool behind NetworkManager: which addresses can be handed out, in which order, and why
    a map keyed by printed addresses behaves like a plain set of host offsets. */
module AddressPool {
  import opened Wrappers
  import opened Numerals

  /** A parsed and masked CIDR: the leading bits of the network and their number (subnetLen). */
  datatype Subnet = Subnet(prefix: nat, ones: nat)

  function Size(net: Subnet): nat
    requires net.ones <= 32
  {
    Pow2(32 - net.ones)
  }

  ghost predicate ValidSubnet(net: Subnet)
  {
    net.ones <= 32 && net.prefix < Pow2(net.ones)
  }

  /** subnetIP as an integer: the prefix followed by zero host bits. */
  function Base(net: Subnet): nat
    requires net.ones <= 32
  {
    net.prefix * Size(net)
  }

  function ShiftRight(x: nat, n: nat): nat
  {
    if n == 0 then x else ShiftRight(x / 2, n - 1)
  }

  /** ip.Mask(ipNet.Mask) keeps the leading bits. */
  function Masked(ip: nat, ones: nat): Subnet
    requires ones <= 32
  {
    Subnet(ShiftRight(ip, 32 - ones), ones)
  }

  /** maxHosts; 0 for a /31 and -1 for a /32. */
  function MaxHosts(net: Subnet): int
    requires net.ones <= 32
  {
    Size(net) - 2
  }

  predicate InSubnet(net: Subnet, x: nat)
    requires net.ones <= 32
  {
    Base(net) <= x < Base(net) + Size(net)
  }

  /** uint32 addition of a converted offset. */
  function Add32(x: nat, offset: nat): nat
  {
    (x + offset % TWO_32) % TWO_32
  }

  /** offsetToIP. */
  function OffsetToIP(net: Subnet, offset: nat): string
    requires net.ones <= 32
  {
    Dotted(Add32(Base(net), offset))
  }

  function PoolSize(net: Subnet): nat
    requires net.ones <= 32
  {
    if MaxHosts(net) < 2 then 0 else MaxHosts(net) - 1
  }

  /** The candidates of AllocateIP in the order it tries them: offsets 2 to maxHosts. */
  function PoolAddresses(net: Subnet): seq<string>
    requires net.ones <= 32
  {
    seq(PoolSize(net), i requires 0 <= i => OffsetToIP(net, i + 2))
  }

  /** The first candidate from index i on that is not in use. */
  function FirstFree(pool: seq<string>, i: nat, used: set<string>): Option<string>
    decreases |pool| - i
  {
    if i >= |pool| then None
    else if pool[i] !in used then Some(pool[i])
    else FirstFree(pool, i + 1, used)
  }

  // ---------- arithmetic of the subnet ----------

  lemma {:induction false} Pow2Splits(a: nat, b: nat)
    ensures Pow2(a + b) == Pow2(a) * Pow2(b)
  {
    if b > 0 {
      Pow2Splits(a, b - 1);
      assert Pow2(a + b) == 2 * Pow2(a + (b - 1));
    }
  }

  lemma Pow2Is2To32()
    ensures Pow2(32) == TWO_32
  {
    assert Pow2(8) == 0x100;
    Pow2Splits(8, 8);
    Pow2Splits(16, 16);
  }

  lemma ProductGrows(q: nat, p: nat, size: nat)
    requires q < p
    ensures q * size + size <= p * size
  {
    Distributes(q + 1, p - q - 1, size);
    Distributes(q, 1, size);
  }

  lemma Distributes(a: nat, b: nat, c: nat)
    ensures (a + b) * c == a * c + b * c && b * c >= 0
  {
  }

  /** No address of the subnet lies beyond the 32-bit range. */
  lemma SubnetFits(net: Subnet)
    requires ValidSubnet(net)
    ensures Base(net) + Size(net) <= TWO_32
  {
    Pow2Splits(net.ones, 32 - net.ones);
    Pow2Is2To32();
    ProductGrows(net.prefix, Pow2(net.ones), Size(net));
  }

  lemma TwiceProduct(q: nat, p: nat)
    ensures q * (2 * p) == 2 * (q * p)
  {
  }

  lemma {:induction false} ShiftRightBounds(x: nat, n: nat)
    ensures ShiftRight(x, n) * Pow2(n) <= x < ShiftRight(x, n) * Pow2(n) + Pow2(n)
  {
    if n > 0 {
      ShiftRightBounds(x / 2, n - 1);
      var q, p := ShiftRight(x / 2, n - 1), Pow2(n - 1);
      assert ShiftRight(x, n) == q && Pow2(n) == 2 * p;
      TwiceProduct(q, p);
    }
  }

  lemma MaskedIsValid(ip: nat, ones: nat)
    requires ip < TWO_32 && ones <= 32
    ensures ValidSubnet(Masked(ip, ones)) && InSubnet(Masked(ip, ones), ip)
  {
    ShiftRightBounds(ip, 32 - ones);
    Pow2Splits(ones, 32 - ones);
    Pow2Is2To32();
    SmallerFactor(ShiftRight(ip, 32 - ones), Pow2(ones), Pow2(32 - ones));
  }

  lemma SmallerFactor(q: nat, p: nat, size: nat)
    requires q * size < p * size
    ensures q < p
  {
    if p < q {
      ProductGrows(p, q, size);
    }
  }

  /** Every pool address is a real host address: the sum does not wrap, stays inside the subnet and
      is not the network address, the gateway's offset 1 or the broadcast address; and its text reads as
      that address. */
  lemma PoolAddressIsHost(net: Subnet, i: nat)
    requires ValidSubnet(net) && i < PoolSize(net)
    ensures var x := Base(net) + i + 2;
            && PoolAddresses(net)[i] == Dotted(x) && ReadAddress(PoolAddresses(net)[i]) == x
            && InSubnet(net, x) && x < TWO_32
            && Base(net) + 1 < x < Base(net) + Size(net) - 1
  {
    PoolHost(net, i);
    DottedReadsBack(Base(net) + i + 2);
  }

  lemma PoolHost(net: Subnet, i: nat)
    requires ValidSubnet(net) && i < PoolSize(net)
    ensures var x := Base(net) + i + 2;
            && PoolAddresses(net)[i] == Dotted(x)
            && InSubnet(net, x) && x < TWO_32
            && Base(net) + 1 < x < Base(net) + Size(net) - 1
  {
    PoolOffset(net, i);
    var x := Base(net) + i + 2;
    PoolText(net, i, x);
  }

  lemma PoolOffset(net: Subnet, i: nat)
    requires ValidSubnet(net) && i < PoolSize(net)
    ensures var x := Base(net) + i + 2;
            Add32(Base(net), i + 2) == x && InSubnet(net, x) && Base(net) + 1 < x < Base(net) + Size(net) - 1 < TWO_32
  {
    SubnetFits(net);
    assert i + 3 < Size(net);
    HostOffset(Base(net), Size(net), i);
    OffsetInSubnet(net, i + 2);
  }

  lemma PoolText(net: Subnet, i: nat, x: nat)
    requires net.ones <= 32 && i < PoolSize(net) && Add32(Base(net), i + 2) == x
    ensures PoolAddresses(net)[i] == Dotted(x)
  {
    PoolEntry(net, i);
  }

  lemma OffsetInSubnet(net: Subnet, offset: nat)
    requires net.ones <= 32 && offset < Size(net)
    ensures InSubnet(net, Base(net) + offset)
  {
  }

  lemma PoolEntry(net: Subnet, i: nat)
    requires net.ones <= 32 && i < PoolSize(net)
    ensures PoolAddresses(net)[i] == OffsetToIP(net, i + 2)
  {
  }

  lemma HostOffset(base: nat, size: nat, i: nat)
    requires base + size <= TWO_32 && i + 3 < size
    ensures Add32(base, i + 2) == base + i + 2
    ensures base + 1 < base + i + 2 < base + size - 1 < TWO_32
  {
    NoWrap(base, i + 2);
  }

  lemma NoWrap(x: nat, offset: nat)
    requires x + offset < TWO_32
    ensures Add32(x, offset) == x + offset
  {
  }

  /** Every real host address but offset 1 is a candidate: the pool has all the room the subnet has. */
  lemma PoolIsAllHosts(net: Subnet, x: nat)
    requires ValidSubnet(net) && InSubnet(net, x)
    requires x != Base(net) && x != Base(net) + 1 && x != Base(net) + Size(net) - 1
    ensures x - Base(net) - 2 < PoolSize(net) && Dotted(x) in PoolAddresses(net)
  {
    var i: nat := x - Base(net) - 2;
    PoolOffset(net, i);
    PoolText(net, i, x);
  }

  lemma PoolCount(net: Subnet)
    requires net.ones <= 32
    ensures |PoolAddresses(net)| == if net.ones <= 30 then Pow2(32 - net.ones) - 3 else 0
  {
    if net.ones <= 30 {
      Pow2Splits(2, 30 - net.ones);
      assert Pow2(2) == 4;
    } else {
      assert Pow2(1) == 2 && Pow2(0) == 1;
    }
  }

  ghost predicate Distinct(pool: seq<string>)
  {
    forall i, j :: 0 <= i < j < |pool| ==> pool[i] != pool[j]
  }

  lemma PoolTextsDiffer(net: Subnet, i: nat, x: nat)
    requires ValidSubnet(net) && i < PoolSize(net)
    requires x < TWO_32 && x != Base(net) + i + 2
    ensures PoolAddresses(net)[i] != Dotted(x)
  {
    PoolHost(net, i);
    TextsDiffer(PoolAddresses(net)[i], Base(net) + i + 2, x);
  }

  lemma TextsDiffer(text: string, m: nat, n: nat)
    requires m < TWO_32 && n < TWO_32 && m != n && text == Dotted(m)
    ensures text != Dotted(n)
  {
    DottedDiffers(m, n);
  }

  lemma DottedDiffers(m: nat, n: nat)
    requires m < TWO_32 && n < TWO_32 && m != n
    ensures Dotted(m) != Dotted(n)
  {
    if Dotted(m) == Dotted(n) {
      DottedInjective(m, n);
    }
  }

  lemma PoolIsDistinct(net: Subnet)
    requires ValidSubnet(net)
    ensures Distinct(PoolAddresses(net))
  {
    forall i, j | 0 <= i < j < |PoolAddresses(net)|
      ensures PoolAddresses(net)[i] != PoolAddresses(net)[j]
    {
      PoolEntriesDiffer(net, i, j);
    }
  }

  lemma PoolEntriesDiffer(net: Subnet, i: nat, j: nat)
    requires ValidSubnet(net) && i < j < PoolSize(net)
    ensures PoolAddresses(net)[i] != PoolAddresses(net)[j]
  {
    PoolHost(net, j);
    PoolTextsDiffer(net, i, Base(net) + j + 2);
  }

  /** The gateway's text is never a candidate. */
  lemma GatewayNotInPool(net: Subnet)
    requires ValidSubnet(net)
    ensures PoolSize(net) > 0 ==> Dotted(Base(net) + 1) !in PoolAddresses(net)
  {
    SubnetFits(net);
    forall i | 0 <= i < |PoolAddresses(net)|
      ensures PoolAddresses(net)[i] != Dotted(Base(net) + 1)
    {
      PoolTextsDiffer(net, i, Base(net) + 1);
    }
  }

  // ---------- the string-keyed map as a set of offsets ----------

  /** The indices into the pool (offset minus 2) whose printed address is in use. */
  ghost function Taken(pool: seq<string>, used: set<string>): set<nat>
  {
    set i: nat | i < |pool| && pool[i] in used
  }

  ghost function Indices(n: nat): (s: set<nat>)
    ensures forall i: nat :: i in s <==> i < n
  {
    if n == 0 then {} else Indices(n - 1) + {n - 1}
  }

  lemma InsertByTextIsInsertByOffset(pool: seq<string>, used: set<string>, i: nat)
    requires Distinct(pool) && i < |pool|
    ensures Taken(pool, used + {pool[i]}) == Taken(pool, used) + {i}
    ensures Taken(pool, used - {pool[i]}) == Taken(pool, used) - {i}
  {
    assert forall j: nat :: j < |pool| ==> (pool[j] == pool[i] <==> j == i);
  }

  lemma {:induction false} TakenCardinality(pool: seq<string>, used: set<string>)
    requires Distinct(pool) && forall ip :: ip in used ==> ip in pool
    ensures |Taken(pool, used)| == |used|
    decreases |used|
  {
    if used == {} {
      assert Taken(pool, used) == {};
    } else {
      var ip :| ip in used;
      var i: nat :| i < |pool| && pool[i] == ip;
      InsertByTextIsInsertByOffset(pool, used, i);
      TakenCardinality(pool, used - {ip});
      assert i in Taken(pool, used);
    }
  }

  lemma {:induction false} IndicesCardinality(n: nat)
    ensures |Indices(n)| == n
  {
    if n > 0 {
      IndicesCardinality(n - 1);
    }
  }

  lemma {:induction false} FullSubset(s: set<nat>, n: nat)
    requires s <= Indices(n) && |s| >= n
    ensures s == Indices(n)
  {
    if exists x :: x in Indices(n) && x !in s {
      var x :| x in Indices(n) && x !in s;
      IndicesCardinality(n);
      SubsetCardinality(s, Indices(n) - {x});
    }
  }

  lemma {:induction false} SubsetCardinality<T>(a: set<T>, b: set<T>)
    requires a <= b
    ensures |a| <= |b|
    decreases |a|
  {
    if a != {} {
      var x :| x in a;
      SubsetCardinality(a - {x}, b - {x});
    }
  }

  /** What first fit finds: the free address of lowest offset, and nothing exactly when every pool
      offset is taken. */
  lemma {:induction false} FirstFreeIsLowest(pool: seq<string>, i: nat, used: set<string>)
    requires i <= |pool|
    ensures match FirstFree(pool, i, used)
            case None => forall j :: i <= j < |pool| ==> pool[j] in used
            case Some(ip) => ip !in used && exists j :: i <= j < |pool| && pool[j] == ip
                                                    && forall l :: i <= l < j ==> pool[l] in used
    decreases |pool| - i
  {
    if i < |pool| && pool[i] in used {
      FirstFreeIsLowest(pool, i + 1, used);
    }
  }

  /** Allocation fails exactly when as many addresses are in use as the pool has. */
  lemma ExhaustedIffCountFull(pool: seq<string>, used: set<string>)
    requires Distinct(pool) && forall ip :: ip in used ==> ip in pool
    ensures FirstFree(pool, 0, used).None? <==> |used| == |pool|
    ensures |used| <= |pool|
  {
    var taken := Taken(pool, used);
    TakenCardinality(pool, used);
    IndicesCardinality(|pool|);
    SubsetCardinality(taken, Indices(|pool|));
    if |used| == |pool| {
      FullSubset(taken, |pool|);
    }
    AllTakenIffNoneFree(pool, used);
  }

  lemma AllTakenIffNoneFree(pool: seq<string>, used: set<string>)
    ensures FirstFree(pool, 0, used).None? <==> Taken(pool, used) == Indices(|pool|)
  {
    FirstFreeIsLowest(pool, 0, used);
    var taken := Taken(pool, used);
    if FirstFree(pool, 0, used).None? {
      assert forall j: nat :: j in taken <==> j in Indices(|pool|);
    } else {
      var j :| 0 <= j < |pool| && pool[j] == FirstFree(pool, 0, used).value;
      assert j in Indices(|pool|) && j !in taken;
    }
  }

  /** ip is the text of pool index i, the lowest that is free, and using it adds just i. */
  ghost predicate TakesLowest(pool: seq<string>, used: set<string>, ip: string, i: nat)
  {
    && i < |pool| && pool[i] == ip && i !in Taken(pool, used)
    && (forall j: nat :: j < i ==> j in Taken(pool, used))
    && Taken(pool, used + {ip}) == Taken(pool, used) + {i}
  }

  lemma AllocationTakesLowest(pool: seq<string>, used: set<string>) returns (i: nat)
    requires Distinct(pool) && FirstFree(pool, 0, used).Some?
    ensures TakesLowest(pool, used, FirstFree(pool, 0, used).value, i)
  {
    FirstFreeIsLowest(pool, 0, used);
    i :| 0 <= i < |pool| && pool[i] == FirstFree(pool, 0, used).value && forall l :: 0 <= l < i ==> pool[l] in used;
    InsertByTextIsInsertByOffset(pool, used, i);
  }
}

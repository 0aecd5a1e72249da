/** Decimal numerals and dotted-decimal addresses, as Go prints them: no leading zeros, most
    significant digit first. Both printers are injective; the address pool, the TAP names and the
    firewall rules all identify things by such texts. */
module Numerals {

  function Digit(d: nat): (c: char)
    requires d < 10
    ensures '0' <= c <= '9'
  {
    "0123456789"[d]
  }

  function Decimal(n: nat): (s: string)
    ensures |s| > 0
    ensures forall i :: 0 <= i < |s| ==> '0' <= s[i] <= '9'
  {
    if n < 10 then [Digit(n)] else Decimal(n / 10) + [Digit(n % 10)]
  }

  /** Reads a numeral back; the partner of Decimal. */
  function ValueOf(s: string): int
  {
    if s == [] then 0 else 10 * ValueOf(s[..|s| - 1]) + (s[|s| - 1] as int - '0' as int)
  }

  lemma {:induction false} DecimalReadsBack(n: nat)
    ensures ValueOf(Decimal(n)) == n
  {
    if n < 10 {
      assert ValueOf(Decimal(n)[..0]) == 0;
    } else {
      DecimalReadsBack(n / 10);
      assert Decimal(n)[..|Decimal(n)| - 1] == Decimal(n / 10);
    }
  }

  lemma DecimalInjective(m: nat, n: nat)
    requires Decimal(m) == Decimal(n)
    ensures m == n
  {
    DecimalReadsBack(m);
    DecimalReadsBack(n);
  }

  /** No leading zeros. */
  lemma {:induction false} DecimalIsCanonical(n: nat)
    ensures |Decimal(n)| > 1 ==> Decimal(n)[0] != '0'
    ensures n > 0 ==> Decimal(n)[0] != '0'
  {
    if n >= 10 {
      DecimalIsCanonical(n / 10);
    }
  }

  const TWO_32 := 0x1_0000_0000

  function Pow2(n: nat): nat
    ensures Pow2(n) > 0
  {
    if n == 0 then 1 else 2 * Pow2(n - 1)
  }

  /** Byte k of a 32-bit number, most significant first. */
  function Octet(n: nat, k: nat): (b: nat)
    requires k < 4
    ensures b < 0x100
    decreases 3 - k, n
  {
    if k == 3 then n % 0x100 else Octet(n / 0x100, k + 1)
  }

  /** Bytes k to 3 in decimal, separated by dots. */
  function DottedFrom(n: nat, k: nat): string
    requires k < 4
    decreases 3 - k, n
  {
    if k == 3 then Decimal(Octet(n, 3)) else Decimal(Octet(n, k)) + "." + DottedFrom(n, k + 1)
  }

  /** The text net.IP.String gives for a four-byte address. */
  function Dotted(n: nat): string
  {
    DottedFrom(n, 0)
  }

  lemma SplitAtDot(a: string, b: string, c: string, d: string)
    requires a + "." + b == c + "." + d
    requires '.' !in a && '.' !in c
    ensures a == c && b == d
  {
    var s := a + "." + b;
    assert s[|a|] == '.' && s[|c|] == '.';
    assert forall i :: 0 <= i < |a| ==> s[i] == a[i];
    assert forall i :: 0 <= i < |c| ==> s[i] == c[i];
    assert |a| == |c|;
    assert a == s[..|a|] && c == s[..|c|];
    assert b == s[|a| + 1..] && d == s[|c| + 1..];
  }

  /** Equal texts have equal bytes, one after the other. */
  lemma {:induction false} DottedFromInjective(m: nat, n: nat, k: nat)
    requires k < 4 && DottedFrom(m, k) == DottedFrom(n, k)
    ensures forall j :: k <= j < 4 ==> Octet(m, j) == Octet(n, j)
    decreases 3 - k
  {
    if k == 3 {
      DecimalInjective(Octet(m, 3), Octet(n, 3));
    } else {
      SplitAtDot(Decimal(Octet(m, k)), DottedFrom(m, k + 1), Decimal(Octet(n, k)), DottedFrom(n, k + 1));
      DecimalInjective(Octet(m, k), Octet(n, k));
      DottedFromInjective(m, n, k + 1);
    }
  }

  lemma BytesDetermine(m: nat, n: nat)
    requires m < TWO_32 && n < TWO_32
    requires forall k :: 0 <= k < 4 ==> Octet(m, k) == Octet(n, k)
    ensures m == n
  {
    FourBytes(m);
    FourBytes(n);
  }

  lemma OctetShift(n: nat, k: nat)
    requires k < 3
    ensures Octet(n, k) == Octet(n / 0x100, k + 1)
  {
  }

  lemma LastOctet(n: nat)
    ensures n == 0x100 * (n / 0x100) + Octet(n, 3)
  {
  }

  lemma FourBytes(n: nat)
    requires n < TWO_32
    ensures n == 0x100 * (0x100 * (0x100 * Octet(n, 0) + Octet(n, 1)) + Octet(n, 2)) + Octet(n, 3)
  {
    var n2 := n / 0x100;
    var n1 := n2 / 0x100;
    var n0 := n1 / 0x100;
    OctetShift(n, 2);
    OctetShift(n, 1);
    OctetShift(n2, 2);
    OctetShift(n, 0);
    OctetShift(n2, 1);
    OctetShift(n1, 2);
    LastOctet(n);
    LastOctet(n2);
    LastOctet(n1);
    LastOctet(n0);
  }

  // ---------- reading an address ----------

  /** The length of the part before the first dot. */
  function UpToDot(s: string): (k: nat)
    ensures k <= |s| && '.' !in s[..k] && (k < |s| ==> s[k] == '.')
  {
    if s == [] || s[0] == '.' then 0 else 1 + UpToDot(s[1..])
  }

  /** The parts of a text between its dots. */
  function Parts(s: string): seq<string>
    decreases |s|
  {
    var k := UpToDot(s);
    if k == |s| then [s] else [s[..k]] + Parts(s[k + 1..])
  }

  /** Parts in base 256, most significant first. */
  function ReadBytes(parts: seq<string>): int
  {
    if parts == [] then 0 else 0x100 * ReadBytes(parts[..|parts| - 1]) + ValueOf(parts[|parts| - 1])
  }

  /** What a dotted-decimal text says. */
  function ReadAddress(s: string): int
  {
    ReadBytes(Parts(s))
  }

  lemma {:induction false} DotFree(a: string, b: string)
    requires '.' !in a && (b == [] || b[0] == '.')
    ensures UpToDot(a + b) == |a|
  {
    if a != [] {
      assert (a + b)[1..] == a[1..] + b;
      DotFree(a[1..], b);
    } else {
      assert a + b == b;
    }
  }

  lemma PartsCons(a: string, b: string)
    requires '.' !in a
    ensures Parts(a + "." + b) == [a] + Parts(b)
  {
    DotFree(a, "." + b);
    var s := a + "." + b;
    assert s == a + ("." + b) && s[..|a|] == a && s[|a| + 1..] == b;
  }

  lemma PartsOfLast(a: string)
    requires '.' !in a
    ensures Parts(a) == [a]
  {
    DotFree(a, "");
    assert a + "" == a;
  }

  /** Bytes k to 3 in decimal. */
  function DecimalsFrom(n: nat, k: nat): seq<string>
    requires k < 4
    decreases 3 - k, n
  {
    if k == 3 then [Decimal(Octet(n, 3))] else [Decimal(Octet(n, k))] + DecimalsFrom(n, k + 1)
  }

  lemma NoDot(n: nat)
    ensures '.' !in Decimal(n)
  {
  }

  lemma {:induction false} DottedParts(n: nat, k: nat)
    requires k < 4
    ensures Parts(DottedFrom(n, k)) == DecimalsFrom(n, k)
    decreases 3 - k
  {
    NoDot(Octet(n, k));
    if k == 3 {
      PartsOfLast(Decimal(Octet(n, 3)));
    } else {
      DottedParts(n, k + 1);
      PartsCons(Decimal(Octet(n, k)), DottedFrom(n, k + 1));
    }
  }

  lemma FourDecimals(n: nat)
    ensures DecimalsFrom(n, 0) ==
            [Decimal(Octet(n, 0)), Decimal(Octet(n, 1)), Decimal(Octet(n, 2)), Decimal(Octet(n, 3))]
  {
    assert DecimalsFrom(n, 3) == [Decimal(Octet(n, 3))];
    assert DecimalsFrom(n, 2) == [Decimal(Octet(n, 2))] + DecimalsFrom(n, 3);
    assert DecimalsFrom(n, 1) == [Decimal(Octet(n, 1))] + DecimalsFrom(n, 2);
  }

  lemma ReadFour(a: string, b: string, c: string, d: string)
    ensures ReadBytes([a, b, c, d]) ==
            0x100 * (0x100 * (0x100 * ValueOf(a) + ValueOf(b)) + ValueOf(c)) + ValueOf(d)
  {
    assert [a, b, c, d][..3] == [a, b, c] && [a, b, c][..2] == [a, b] && [a, b][..1] == [a] && [a][..0] == [];
    assert ReadBytes([a]) == ValueOf(a);
    assert ReadBytes([a, b]) == 0x100 * ValueOf(a) + ValueOf(b);
    assert ReadBytes([a, b, c]) == 0x100 * (0x100 * ValueOf(a) + ValueOf(b)) + ValueOf(c);
  }

  /** A printed address reads as that address: four numerals, most significant byte first. */
  lemma DottedReadsBack(n: nat)
    requires n < TWO_32
    ensures ReadAddress(Dotted(n)) == n && |Parts(Dotted(n))| == 4
  {
    DottedParts(n, 0);
    var a, b, c, d := Decimal(Octet(n, 0)), Decimal(Octet(n, 1)), Decimal(Octet(n, 2)), Decimal(Octet(n, 3));
    FourDecimals(n);
    ReadFour(a, b, c, d);
    DecimalReadsBack(Octet(n, 0));
    DecimalReadsBack(Octet(n, 1));
    DecimalReadsBack(Octet(n, 2));
    DecimalReadsBack(Octet(n, 3));
    FourBytes(n);
  }

  /** The first address of 172.16.0.0/24 that is handed out. */
  lemma FirstGuestText()
    ensures Dotted(0xAC10_0002) == "172.16.0.2"
  {
    var n := 0xAC10_0002;
    FirstGuestBytes();
    assert Decimal(172) == "172" && Decimal(16) == "16" && Decimal(0) == "0" && Decimal(2) == "2";
    assert DottedFrom(n, 3) == "2";
    assert DottedFrom(n, 2) == "0.2";
    assert DottedFrom(n, 1) == "16.0.2";
  }

  lemma FirstGuestBytes()
    ensures var n := 0xAC10_0002; Octet(n, 0) == 172 && Octet(n, 1) == 16 && Octet(n, 2) == 0 && Octet(n, 3) == 2
  {
    var n := 0xAC10_0002;
    OctetShift(n, 2);
    OctetShift(n, 1);
    OctetShift(n / 0x100, 2);
    OctetShift(n, 0);
    OctetShift(n / 0x100, 1);
    OctetShift(n / 0x100 / 0x100, 2);
  }

  lemma DottedInjective(m: nat, n: nat)
    requires m < TWO_32 && n < TWO_32
    requires Dotted(m) == Dotted(n)
    ensures m == n
  {
    DottedFromInjective(m, n, 0);
    BytesDetermine(m, n);
  }

  /** The name CreateTapDevice builds from its counter (network.go:86). */
  function TapName(idx: nat): string
  {
    "fc_tap" + Decimal(idx)
  }

  lemma FirstTapName()
    ensures TapName(1) == "fc_tap1"
  {
  }

  lemma TapNameInjective(i: nat, j: nat)
    requires TapName(i) == TapName(j)
    ensures i == j
  {
    assert TapName(i)[6..] == Decimal(i) && TapName(j)[6..] == Decimal(j);
    DecimalInjective(i, j);
  }
}

/** The FORWARD chain: iptables rules as the orchestrator writes them, first-match evaluation, and
    what appending (-A) and deleting the first equal rule (-D) do to counts and to order. */
module Firewall {
  import opened Numerals
  import opened Wrappers
  import opened AddressPool

  datatype AddressMatch = Any | Only(ip: string) | Within | Outside
  datatype Target = Accept | Drop
  datatype Rule = Rule(src: AddressMatch, dst: AddressMatch, established: bool, target: Target)

  /** established: conntrack state ESTABLISHED or RELATED; otherwise NEW. */
  datatype Packet = Packet(src: nat, dst: nat, established: bool)

  predicate AddressMatches(net: Subnet, m: AddressMatch, x: nat)
    requires net.ones <= 32
  {
    match m
    case Any => true
    case Only(ip) => Dotted(x) == ip
    case Within => InSubnet(net, x)
    case Outside => !InSubnet(net, x)
  }

  predicate Matches(net: Subnet, r: Rule, p: Packet)
    requires net.ones <= 32
  {
    AddressMatches(net, r.src, p.src) && AddressMatches(net, r.dst, p.dst) && (r.established ==> p.established)
  }

  /** The target of the first matching rule; None when the packet falls through to the policy. */
  function Verdict(net: Subnet, chain: seq<Rule>, p: Packet): Option<Target>
    requires net.ones <= 32
  {
    if chain == [] then None
    else if Matches(net, chain[0], p) then Some(chain[0].target)
    else Verdict(net, chain[1..], p)
  }

  /** The rules of SetupVMIsolation, in the order they are added. */
  function IsolationRule(gateway: string, ip: string, step: nat): Rule
  {
    match step
    case 0 => Rule(Only(ip), Only(gateway), false, Accept)
    case 1 => Rule(Only(ip), Outside, false, Accept)
    case 2 => Rule(Any, Only(ip), true, Accept)
    case 3 => Rule(Only(gateway), Only(ip), false, Accept)
    case _ => Rule(Only(ip), Within, false, Drop)
  }

  const RULES := 5
  const TO_GATEWAY := 0
  const TO_OUTSIDE := 1
  const RETURN := 2
  const FROM_GATEWAY := 3
  const ISOLATE := 4

  /** The rules of steps lo to hi-1, in order. */
  function RuleSpan(gateway: string, ip: string, lo: nat, hi: nat): seq<Rule>
  {
    seq(if lo <= hi then hi - lo else 0, i requires 0 <= i => IsolationRule(gateway, ip, lo + i))
  }

  /** The five rules, one by one: to the gateway, to the outside, replies, from the gateway, and DROP for the
      rest of the subnet. */
  lemma FiveRules(gateway: string, ip: string)
    ensures RuleSpan(gateway, ip, 0, RULES) ==
            [Rule(Only(ip), Only(gateway), false, Accept), Rule(Only(ip), Outside, false, Accept),
             Rule(Any, Only(ip), true, Accept), Rule(Only(gateway), Only(ip), false, Accept),
             Rule(Only(ip), Within, false, Drop)]
  {
    var span := RuleSpan(gateway, ip, 0, RULES);
    assert |span| == 5;
    assert span[0] == IsolationRule(gateway, ip, 0) && span[1] == IsolationRule(gateway, ip, 1);
    assert span[2] == IsolationRule(gateway, ip, 2) && span[3] == IsolationRule(gateway, ip, 3);
    assert span[4] == IsolationRule(gateway, ip, 4);
    assert span == [span[0], span[1], span[2], span[3], span[4]];
  }

  lemma SpanGrows(gateway: string, ip: string, lo: nat, hi: nat)
    requires lo <= hi
    ensures RuleSpan(gateway, ip, lo, hi + 1) == RuleSpan(gateway, ip, lo, hi) + [IsolationRule(gateway, ip, hi)]
    ensures RuleSpan(gateway, ip, lo, hi + 1) == [IsolationRule(gateway, ip, lo)] + RuleSpan(gateway, ip, lo + 1, hi + 1)
  {
  }

  /** iptables -D: removes the first rule equal to r, if there is one. */
  function DeleteFirst(chain: seq<Rule>, r: Rule): seq<Rule>
  {
    if chain == [] then []
    else if chain[0] == r then chain[1..]
    else [chain[0]] + DeleteFirst(chain[1..], r)
  }

  lemma {:induction false} DeleteFirstCounts(chain: seq<Rule>, r: Rule)
    ensures multiset(DeleteFirst(chain, r)) == multiset(chain) - multiset{r}
  {
    if chain != [] {
      assert chain == [chain[0]] + chain[1..];
      if chain[0] != r {
        DeleteFirstCounts(chain[1..], r);
      }
    }
  }

  /** Position i holds the first copy of r. */
  predicate IsFirst(chain: seq<Rule>, r: Rule, i: int)
  {
    0 <= i < |chain| && chain[i] == r && r !in chain[..i]
  }

  /** -D takes out the first copy of its rule and leaves all others where they are. */
  lemma {:induction false} DeleteFirstTakesFirst(chain: seq<Rule>, r: Rule)
    ensures r !in chain ==> DeleteFirst(chain, r) == chain
    ensures forall i :: IsFirst(chain, r, i) ==> DeleteFirst(chain, r) == chain[..i] + chain[i + 1..]
  {
    if chain != [] {
      DeleteFirstTakesFirst(chain[1..], r);
      forall i | IsFirst(chain, r, i)
        ensures DeleteFirst(chain, r) == chain[..i] + chain[i + 1..]
      {
        FirstInRest(chain, r, i);
      }
      assert chain == [chain[0]] + chain[1..];
    }
  }

  lemma FirstInRest(chain: seq<Rule>, r: Rule, i: int)
    requires IsFirst(chain, r, i)
    ensures if chain[0] == r then i == 0
            else IsFirst(chain[1..], r, i - 1) && [chain[0]] + (chain[1..][..i - 1] + chain[1..][i..]) == chain[..i] + chain[i + 1..]
  {
    if i > 0 {
      assert chain[0] in chain[..i] && chain[..i][1..] == chain[1..][..i - 1];
    }
  }

  lemma {:induction false} DeleteFirstKeepsOnly(chain: seq<Rule>, r: Rule)
    ensures forall x :: x in DeleteFirst(chain, r) ==> x in chain
  {
    if chain != [] && chain[0] != r {
      DeleteFirstKeepsOnly(chain[1..], r);
    }
  }

  /** Some copy of r comes before every copy of s. */
  ghost predicate Precedes(chain: seq<Rule>, r: Rule, s: Rule)
  {
    exists i :: 0 <= i < |chain| && chain[i] == r && s !in chain[..i]
  }

  /** Of two rules in the chain one comes first. */
  lemma {:induction false} OneOrOther(chain: seq<Rule>, r: Rule, s: Rule)
    requires r in chain && s in chain && r != s
    ensures Precedes(chain, r, s) <==> !Precedes(chain, s, r)
  {
    if chain[0] == r {
      FirstPrecedes(chain, r, s);
    } else if chain[0] == s {
      FirstPrecedes(chain, s, r);
    } else {
      OneOrOther(chain[1..], r, s);
      TailPrecedes(chain, r, s);
      TailPrecedes(chain, s, r);
    }
  }

  lemma FirstPrecedes(chain: seq<Rule>, r: Rule, s: Rule)
    requires chain != [] && chain[0] == r != s
    ensures Precedes(chain, r, s) && !Precedes(chain, s, r)
  {
    assert chain[..0] == [];
    assert forall i :: 0 < i < |chain| ==> chain[0] in chain[..i];
  }

  lemma PrefixCons(x: Rule, chain: seq<Rule>, j: nat)
    requires j <= |chain|
    ensures ([x] + chain)[..j + 1] == [x] + chain[..j]
  {
  }

  lemma TailPrecedes(chain: seq<Rule>, r: Rule, s: Rule)
    requires chain != [] && chain[0] != r && chain[0] != s
    ensures Precedes(chain, r, s) <==> Precedes(chain[1..], r, s)
  {
    if Precedes(chain, r, s) {
      var i :| 0 <= i < |chain| && chain[i] == r && s !in chain[..i];
      assert chain[1..][i - 1] == r && chain[1..][..i - 1] == chain[..i][1..];
    }
    if Precedes(chain[1..], r, s) {
      var i :| 0 <= i < |chain| - 1 && chain[1..][i] == r && s !in chain[1..][..i];
      assert chain == [chain[0]] + chain[1..];
      PrefixCons(chain[0], chain[1..], i);
      assert chain[i + 1] == r;
    }
  }

  lemma AppendKeepsOrder(chain: seq<Rule>, x: Rule, r: Rule, s: Rule)
    ensures Precedes(chain, r, s) ==> Precedes(chain + [x], r, s)
    ensures r in chain && s !in chain ==> Precedes(chain + [x], r, s)
  {
    if r in chain && s !in chain {
      assert Precedes(chain, r, s);
    }
    if Precedes(chain, r, s) {
      var i :| 0 <= i < |chain| && chain[i] == r && s !in chain[..i];
      assert (chain + [x])[..i] == chain[..i] && (chain + [x])[i] == r;
    }
  }

  lemma {:induction false} DeleteKeepsOrder(chain: seq<Rule>, x: Rule, r: Rule, s: Rule)
    requires Precedes(chain, r, s) && x != r && r != s
    ensures Precedes(DeleteFirst(chain, x), r, s)
  {
    var i :| 0 <= i < |chain| && chain[i] == r && s !in chain[..i];
    var rest := chain[1..];
    if i == 0 {
      assert DeleteFirst(chain, x)[0] == r;
    } else {
      assert chain[0] in chain[..i] && chain[0] != s;
      assert rest[i - 1] == r && rest[..i - 1] == chain[..i][1..];
      assert Precedes(rest, r, s);
      if chain[0] != x {
        DeleteKeepsOrder(rest, x, r, s);
        var d := DeleteFirst(rest, x);
        var j :| 0 <= j < |d| && d[j] == r && s !in d[..j];
        var e := [chain[0]] + d;
        assert DeleteFirst(chain, x) == e;
        PrefixCons(chain[0], d, j);
        assert e[j + 1] == r;
      }
    }
  }

  lemma {:induction false} VerdictNone(net: Subnet, chain: seq<Rule>, p: Packet)
    requires net.ones <= 32 && forall r :: r in chain ==> !Matches(net, r, p)
    ensures Verdict(net, chain, p) == None
  {
    if chain != [] {
      VerdictNone(net, chain[1..], p);
    }
  }

  ghost predicate Unanimous(net: Subnet, chain: seq<Rule>, p: Packet, t: Target)
    requires net.ones <= 32
  {
    && (forall r :: r in chain && Matches(net, r, p) ==> r.target == t)
    && (exists r :: r in chain && Matches(net, r, p))
  }

  /** When every rule that matches a packet has one target and some rule matches, first-match
      evaluation gives that target, whatever the order of the chain. */
  lemma {:induction false} VerdictUnanimous(net: Subnet, chain: seq<Rule>, p: Packet, t: Target)
    requires net.ones <= 32 && Unanimous(net, chain, p, t)
    ensures Verdict(net, chain, p) == Some(t)
  {
    if !Matches(net, chain[0], p) {
      var r :| r in chain && Matches(net, r, p);
      assert r in chain[1..];
      VerdictUnanimous(net, chain[1..], p, t);
    }
  }

  /** When s is the only rule against t that matches and r, matching and for t, precedes it, the
      verdict is t. */
  lemma {:induction false} VerdictByOrder(net: Subnet, chain: seq<Rule>, p: Packet, r: Rule, s: Rule)
    requires net.ones <= 32
    requires Precedes(chain, r, s) && Matches(net, r, p)
    requires forall x :: x in chain && Matches(net, x, p) && x != s ==> x.target == r.target
    ensures Verdict(net, chain, p) == Some(r.target)
  {
    var i :| 0 <= i < |chain| && chain[i] == r && s !in chain[..i];
    if i > 0 {
      assert chain[0] in chain[..i] && chain[0] != s;
      if !Matches(net, chain[0], p) {
        assert chain[1..][i - 1] == r && chain[1..][..i - 1] == chain[..i][1..];
        VerdictByOrder(net, chain[1..], p, r, s);
      }
    }
  }

  ghost predicate TwoMatch(net: Subnet, chain: seq<Rule>, p: Packet, r: Rule, s: Rule)
    requires net.ones <= 32
  {
    && r != s && r in chain && s in chain && Matches(net, r, p) && Matches(net, s, p)
    && (forall x :: x in chain && Matches(net, x, p) ==> x == r || x == s)
  }

  /** When two rules match and no other does, the one that comes first decides. */
  lemma VerdictOfTwo(net: Subnet, chain: seq<Rule>, p: Packet, r: Rule, s: Rule)
    requires net.ones <= 32 && TwoMatch(net, chain, p, r, s)
    ensures Verdict(net, chain, p) == Some(if Precedes(chain, r, s) then r.target else s.target)
  {
    OneOrOther(chain, r, s);
    if Precedes(chain, r, s) {
      VerdictByOrder(net, chain, p, r, s);
    } else {
      VerdictByOrder(net, chain, p, s, r);
    }
  }

  /** The rules of distinct VMs and steps are distinct, so -D never hits another VM's rule. */
  lemma IsolationRulesDistinct(gateway: string, ip: string, i: nat, ip': string, j: nat)
    requires i < RULES && j < RULES && ip != gateway && ip' != gateway
    requires IsolationRule(gateway, ip, i) == IsolationRule(gateway, ip', j)
    ensures ip == ip' && i == j
  {
  }
}

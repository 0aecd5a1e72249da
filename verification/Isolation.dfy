/** What the protocol guarantees of every run: one holder for each address and device, a firewall
    verdict for every packet of a launched VM, and no packet between two VMs. */
module Isolation {
  import opened Wrappers
  import opened Numerals
  import opened AddressPool
  import opened Firewall
  import opened Protocol
  import opened Invariant
  import opened RuleAccounting

  /** The gateway is offset 1 of the subnet and the pool is the subnet's. */
  ghost predicate Configured(net: Subnet, cfg: Config)
  {
    && ValidSubnet(net)
    && cfg.pool == PoolAddresses(net)
    && cfg.gateway == Dotted(Gateway(net))
  }

  lemma GatewayIsNoGuest(net: Subnet, cfg: Config)
    requires Configured(net, cfg)
    ensures cfg.gateway !in cfg.pool
  {
    GatewayNotInPool(net);
  }

  function Gateway(net: Subnet): nat
    requires net.ones <= 32
  {
    Base(net) + 1
  }

  ghost predicate Has(s: System, h: Holder, ip: string)
  {
    HoldingOf(s, h).Holds? && HoldingOf(s, h).ip == ip
  }

  /** In every run an address is leased exactly when someone holds it, and then exactly one call,
      instance or overwritten instance does. */
  lemma LeasedIffOneHolder(cfg: Config, events: seq<Event>, ip: string)
    requires cfg.gateway !in cfg.pool
    ensures var s := Run(cfg, events);
            && (ip in s.world.leases <==> exists h :: Has(s, h, ip))
            && (forall h, h' :: Has(s, h, ip) && Has(s, h', ip) ==> h == h')
            && (ip in s.world.leases ==> ip in cfg.pool)
  {
    RunKeepsInv(cfg, events);
    var s := Run(cfg, events);
    assert forall h :: Has(s, h, ip) ==> AddressIn(s)(h) == Some(ip);
    if ip in s.world.leases {
      assert AddressIn(s)(s.past.holder[ip]) == Some(ip);
      assert Has(s, s.past.holder[ip], ip);
    }
  }

  ghost predicate HasTap(s: System, h: Holder, tap: string)
  {
    HoldingOf(s, h).Holds? && HoldingOf(s, h).tap == Some(tap)
  }

  /** In every run no TAP name is handed out twice, and every device belongs to exactly one holder
      unless its deletion failed. */
  lemma TapNamesNeverReused(cfg: Config, events: seq<Event>)
    requires cfg.gateway !in cfg.pool
    ensures var s := Run(cfg, events);
            && (forall i, j :: 0 <= i < j < |s.past.issued| ==> s.past.issued[i] != s.past.issued[j])
            && (forall t :: t in s.world.taps && t !in s.past.orphans ==> exists h :: HasTap(s, h, t))
            && (forall t, h, h' :: HasTap(s, h, t) && HasTap(s, h', t) ==> h == h')
            && (forall t :: t in s.past.orphans ==> !exists h :: HasTap(s, h, t))
  {
    RunKeepsInv(cfg, events);
    var s := Run(cfg, events);
    forall i, j | 0 <= i < j < |s.past.issued|
      ensures s.past.issued[i] != s.past.issued[j]
    {
      if TapName(i + 1) == TapName(j + 1) {
        TapNameInjective(i + 1, j + 1);
      }
    }
    assert forall h, t :: HasTap(s, h, t) ==> TapIn(s)(h) == Some(t);
    forall t | t in s.world.taps && t !in s.past.orphans
      ensures exists h :: HasTap(s, h, t)
    {
      assert Live(s, t);
      assert HasTap(s, s.past.tapHolder[t], t);
    }
  }

  // ---------- rule accounting ----------

  /** Event n of the run is a failed -D of the DROP rule of ip. */
  ghost predicate FailedDropDeletion(cfg: Config, events: seq<Event>, n: nat, ip: string)
  {
    n < |events| &&
    var s, e := Run(cfg, events[..n]), events[n];
    e.Advance? && !e.ok && e.id in s.calls && DeletesDrop(s.calls[e.id], ip)
  }

  predicate DeletesDrop(c: Call, ip: string)
  {
    c.DeleteRule? && c.ip == ip && c.step == ISOLATE
  }

  /** No deletion of the DROP rule of ip failed; any other command may have. */
  ghost predicate DropDeletionsSucceed(cfg: Config, events: seq<Event>, ip: string)
  {
    forall n :: !FailedDropDeletion(cfg, events, n, ip)
  }

  /** A step leaves a DROP of ip behind exactly when it is a failed deletion of that rule; a setup that
      fails part-way never does. */
  lemma AdvanceLeavesDropIff(cfg: Config, s: System, id: nat, ok: bool, ip: string)
    requires cfg.gateway !in cfg.pool && ip in cfg.pool && Inv(cfg, s) && id in s.calls
    ensures var drop := IsolationRule(cfg.gateway, ip, ISOLATE);
            Step(cfg, s, Advance(id, ok)).past.left[drop] ==
            s.past.left[drop] + (if !ok && DeletesDrop(s.calls[id], ip) then 1 else 0)
  {
    var c := s.calls[id];
    if MovesRule(c) {
      assert AddressIn(s)(OfCall(id)) == Some(c.ip);
      if c.AddRule? {
        AddRuleCounts(cfg, s, id, ok, ip, ISOLATE);
      } else {
        DeletedRuleIsPresent(cfg, s, id);
        DeleteRuleCounts(cfg, s, id, ok, ip, ISOLATE);
      }
    } else {
      OtherStepsKeepRules(cfg, s.world, s.past, id, c, ok);
    }
  }

  /** A DROP of ip is left over exactly when a deletion of it failed: no failed setup, no other failed
      deletion and no other address matters. */
  lemma {:induction false} OnlyFailedDeletionsLeaveDrops(cfg: Config, events: seq<Event>, ip: string)
    requires cfg.gateway !in cfg.pool && ip in cfg.pool
    ensures Run(cfg, events).past.left[IsolationRule(cfg.gateway, ip, ISOLATE)] == 0 <==>
            DropDeletionsSucceed(cfg, events, ip)
  {
    if events != [] {
      var prefix, e := events[..|events| - 1], events[|events| - 1];
      var s := Run(cfg, prefix);
      OnlyFailedDeletionsLeaveDrops(cfg, prefix, ip);
      RunKeepsInv(cfg, prefix);
      if e.Advance? && e.id in s.calls {
        AdvanceLeavesDropIff(cfg, s, e.id, e.ok, ip);
      }
      DropDeletionsExtend(cfg, events, ip);
    }
  }

  lemma DropDeletionsExtend(cfg: Config, events: seq<Event>, ip: string)
    requires events != []
    ensures var n := |events| - 1;
            DropDeletionsSucceed(cfg, events, ip) <==>
            DropDeletionsSucceed(cfg, events[..n], ip) && !FailedDropDeletion(cfg, events, n, ip)
  {
    var last := |events| - 1;
    forall n: nat | n < last
      ensures FailedDropDeletion(cfg, events, n, ip) <==> FailedDropDeletion(cfg, events[..last], n, ip)
    {
      assert events[..last][..n] == events[..n];
    }
  }

  /** The copies of each rule in the chain are the left-overs and the holder's own; unless a deletion of
      its DROP failed, an address has one while its VM is launched and none while it is free. */
  lemma RuleCopies(cfg: Config, events: seq<Event>, ip: string, k: nat)
    requires cfg.gateway !in cfg.pool && ip in cfg.pool && k < RULES
    ensures var s, r := Run(cfg, events), IsolationRule(cfg.gateway, ip, k);
            && (forall h :: Has(s, h, ip) ==>
                  multiset(s.world.chain)[r] ==
                  s.past.left[r] + (if HoldingOf(s, h).lo <= k < HoldingOf(s, h).hi then 1 else 0))
            && (ip !in s.world.leases ==> multiset(s.world.chain)[r] == s.past.left[r])
            && (DropDeletionsSucceed(cfg, events, ip) && k == ISOLATE ==>
                  && (ip !in s.world.leases ==> r !in s.world.chain)
                  && (forall i :: i in s.world.running && i.ip == ip ==> multiset(s.world.chain)[r] == 1))
  {
    RunKeepsInv(cfg, events);
    var s, r := Run(cfg, events), IsolationRule(cfg.gateway, ip, k);
    assert multiset(s.world.chain)[r] == s.past.left[r] + (if HasRule(s, ip, k) then 1 else 0);
    forall h | Has(s, h, ip)
      ensures HasRule(s, ip, k) <==> HoldingOf(s, h).lo <= k < HoldingOf(s, h).hi
    {
      assert AddressIn(s)(h) == Some(ip);
    }
    if DropDeletionsSucceed(cfg, events, ip) && k == ISOLATE {
      OnlyFailedDeletionsLeaveDrops(cfg, events, ip);
      assert r in s.world.chain <==> multiset(s.world.chain)[r] > 0;
    }
  }

  // ---------- the policy of a launched VM ----------

  /** x is the address of a launched VM. */
  ghost predicate Launched(s: System, x: nat)
  {
    exists i :: i in s.world.running && i.ip == Dotted(x)
  }

  lemma LaunchedHasRules(net: Subnet, cfg: Config, s: System, a: nat, k: nat)
    requires Configured(net, cfg) && Inv(cfg, s) && Launched(s, a) && k < RULES
    ensures Dotted(a) in cfg.pool && HasRule(s, Dotted(a), k)
    ensures IsolationRule(cfg.gateway, Dotted(a), k) in s.world.chain
  {
    var i :| i in s.world.running && i.ip == Dotted(a);
    assert Secures(s, s.past.holder[i.ip], i);
    assert HasRule(s, Dotted(a), k);
    assert multiset(s.world.chain)[IsolationRule(cfg.gateway, Dotted(a), k)] > 0;
  }

  lemma PoolTextIsNoOther(net: Subnet, cfg: Config, ip: string, x: nat)
    requires Configured(net, cfg) && ip in cfg.pool && x < TWO_32
    requires !InSubnet(net, x) || x == Gateway(net)
    ensures Dotted(x) != ip
  {
    var i :| 0 <= i < |cfg.pool| && cfg.pool[i] == ip;
    PoolHost(net, i);
    PoolTextsDiffer(net, i, x);
  }

  /** What a rule of ours can match: packets whose source or destination is its VM. */
  lemma MatchingRule(net: Subnet, cfg: Config, r: Rule, p: Packet) returns (ip: string, k: nat)
    requires Configured(net, cfg) && IsOurs(cfg, r) && Matches(net, r, p)
    ensures ip in cfg.pool && k < RULES && r == IsolationRule(cfg.gateway, ip, k)
    ensures if k == RETURN || k == FROM_GATEWAY then Dotted(p.dst) == ip else Dotted(p.src) == ip
    ensures k == TO_GATEWAY ==> Dotted(p.dst) == cfg.gateway
    ensures k == TO_OUTSIDE ==> !InSubnet(net, p.dst)
    ensures k == RETURN ==> p.established
    ensures k == FROM_GATEWAY ==> Dotted(p.src) == cfg.gateway
    ensures k == ISOLATE ==> InSubnet(net, p.dst)
    ensures r.target == if k == ISOLATE then Drop else Accept
  {
    ip, k :| ip in cfg.pool && k < RULES && r == IsolationRule(cfg.gateway, ip, k);
  }

  /** A new packet from a launched VM to any subnet address but the gateway is dropped, whatever else
      the chain holds. */
  lemma NewPacketInsideIsDropped(net: Subnet, cfg: Config, s: System, a: nat, x: nat)
    requires Configured(net, cfg) && Inv(cfg, s) && Launched(s, a)
    requires a < TWO_32 && x < TWO_32 && InSubnet(net, x) && x != Gateway(net)
    ensures Verdict(net, s.world.chain, Packet(a, x, false)) == Some(Drop)
  {
    var p := Packet(a, x, false);
    LaunchedHasRules(net, cfg, s, a, ISOLATE);
    OnlyDropsMatch(net, cfg, s, a, x);
    VerdictUnanimous(net, s.world.chain, p, Drop);
  }

  lemma OnlyDropsMatch(net: Subnet, cfg: Config, s: System, a: nat, x: nat)
    requires Configured(net, cfg) && ChainIsOurs(cfg, s)
    requires x < TWO_32 && InSubnet(net, x) && x != Gateway(net) && Dotted(a) in cfg.pool
    requires IsolationRule(cfg.gateway, Dotted(a), ISOLATE) in s.world.chain
    ensures Unanimous(net, s.world.chain, Packet(a, x, false), Drop)
  {
    assert Matches(net, IsolationRule(cfg.gateway, Dotted(a), ISOLATE), Packet(a, x, false));
    forall r | r in s.world.chain && Matches(net, r, Packet(a, x, false))
      ensures r.target == Drop
    {
      MatchesInside(net, cfg, a, x, r);
    }
  }

  /** The rules that match a new packet between two guests. */
  lemma MatchesInside(net: Subnet, cfg: Config, a: nat, x: nat, r: Rule)
    requires Configured(net, cfg) && IsOurs(cfg, r) && Matches(net, r, Packet(a, x, false))
    requires x < TWO_32 && InSubnet(net, x) && x != Gateway(net) && Dotted(a) in cfg.pool
    ensures r.target == Drop
  {
    GatewayIsNoGuest(net, cfg);
    SubnetFits(net);
    DottedDiffers(x, Gateway(net));
    var ip, k := MatchingRule(net, cfg, r, Packet(a, x, false));
  }

  /** A launched VM reaches every outside address. */
  lemma OutsideIsReached(net: Subnet, cfg: Config, s: System, a: nat, x: nat, established: bool)
    requires Configured(net, cfg) && Inv(cfg, s) && Launched(s, a)
    requires a < TWO_32 && x < TWO_32 && !InSubnet(net, x)
    ensures Verdict(net, s.world.chain, Packet(a, x, established)) == Some(Accept)
  {
    var p := Packet(a, x, established);
    GatewayIsNoGuest(net, cfg);
    LaunchedHasRules(net, cfg, s, a, TO_OUTSIDE);
    assert Matches(net, IsolationRule(cfg.gateway, Dotted(a), TO_OUTSIDE), p);
    forall r | r in s.world.chain && Matches(net, r, p)
      ensures r.target == Accept
    {
      var ip, k := MatchingRule(net, cfg, r, p);
    }
    VerdictUnanimous(net, s.world.chain, p, Accept);
  }

  /** The gateway reaches a launched VM, and replies from outside reach it. */
  lemma InboundIsAccepted(net: Subnet, cfg: Config, s: System, a: nat, x: nat, established: bool)
    requires Configured(net, cfg) && Inv(cfg, s) && Launched(s, a)
    requires a < TWO_32 && x < TWO_32
    requires x == Gateway(net) || (!InSubnet(net, x) && established)
    ensures Verdict(net, s.world.chain, Packet(x, a, established)) == Some(Accept)
  {
    var p := Packet(x, a, established);
    var k0 := if x == Gateway(net) then FROM_GATEWAY else RETURN;
    LaunchedHasRules(net, cfg, s, a, k0);
    assert Matches(net, IsolationRule(cfg.gateway, Dotted(a), k0), p);
    forall r | r in s.world.chain && Matches(net, r, p)
      ensures r.target == Accept
    {
      var ip, k := MatchingRule(net, cfg, r, p);
      PoolTextIsNoOther(net, cfg, ip, x);
    }
    VerdictUnanimous(net, s.world.chain, p, Accept);
  }

  /** No rule matches a new packet from outside, so the chain's policy decides. */
  lemma NewFromOutsideFallsThrough(net: Subnet, cfg: Config, s: System, a: nat, x: nat)
    requires Configured(net, cfg) && Inv(cfg, s) && x < TWO_32 && !InSubnet(net, x)
    ensures Verdict(net, s.world.chain, Packet(x, a, false)) == None
  {
    forall r | r in s.world.chain
      ensures !Matches(net, r, Packet(x, a, false))
    {
      NoRuleMatches(net, cfg, a, x, r);
    }
    VerdictNone(net, s.world.chain, Packet(x, a, false));
  }

  lemma NoRuleMatches(net: Subnet, cfg: Config, a: nat, x: nat, r: Rule)
    requires Configured(net, cfg) && IsOurs(cfg, r) && x < TWO_32 && !InSubnet(net, x)
    ensures !Matches(net, r, Packet(x, a, false))
  {
    if Matches(net, r, Packet(x, a, false)) {
      var ip, k := MatchingRule(net, cfg, r, Packet(x, a, false));
      PoolTextIsNoOther(net, cfg, ip, x);
      OutsideIsNotGateway(net, x);
    }
  }

  lemma OutsideIsNotGateway(net: Subnet, x: nat)
    requires ValidSubnet(net) && x < TWO_32 && !InSubnet(net, x) && Size(net) > 1
    ensures Dotted(x) != Dotted(Gateway(net))
  {
    SubnetFits(net);
    DottedDiffers(x, Gateway(net));
  }

  /** The rules that match a launched VM's packets to the gateway: its own first and last. */
  lemma MatchesToGateway(net: Subnet, cfg: Config, a: nat, established: bool, r: Rule)
    requires Configured(net, cfg) && IsOurs(cfg, r) && Matches(net, r, Packet(a, Gateway(net), established))
    ensures r == IsolationRule(cfg.gateway, Dotted(a), TO_GATEWAY) || r == IsolationRule(cfg.gateway, Dotted(a), ISOLATE)
  {
    GatewayIsNoGuest(net, cfg);
    var ip, k := MatchingRule(net, cfg, r, Packet(a, Gateway(net), established));
  }

  lemma OnlyTwoMatch(net: Subnet, cfg: Config, chain: seq<Rule>, a: nat, established: bool)
    requires Configured(net, cfg) && Dotted(a) in cfg.pool && forall r :: r in chain ==> IsOurs(cfg, r)
    requires IsolationRule(cfg.gateway, Dotted(a), TO_GATEWAY) in chain
    requires IsolationRule(cfg.gateway, Dotted(a), ISOLATE) in chain
    ensures TwoMatch(net, chain, Packet(a, Gateway(net), established),
                     IsolationRule(cfg.gateway, Dotted(a), TO_GATEWAY), IsolationRule(cfg.gateway, Dotted(a), ISOLATE))
  {
    GatewayIsInside(net, cfg, a, established);
    forall r | r in chain && Matches(net, r, Packet(a, Gateway(net), established))
      ensures r == IsolationRule(cfg.gateway, Dotted(a), TO_GATEWAY) || r == IsolationRule(cfg.gateway, Dotted(a), ISOLATE)
    {
      MatchesToGateway(net, cfg, a, established, r);
    }
  }

  /** Whether a launched VM reaches the gateway depends on the order of the chain, and on nothing else:
      it does exactly when some copy of its first rule precedes every copy of its last. */
  lemma GatewayReachedIff(net: Subnet, cfg: Config, s: System, a: nat, established: bool)
    requires Configured(net, cfg) && Inv(cfg, s) && Launched(s, a) && a < TWO_32
    ensures var accept, drop := IsolationRule(cfg.gateway, Dotted(a), TO_GATEWAY), IsolationRule(cfg.gateway, Dotted(a), ISOLATE);
            Verdict(net, s.world.chain, Packet(a, Gateway(net), established)) ==
            Some(if Precedes(s.world.chain, accept, drop) then Accept else Drop)
  {
    LaunchedHasRules(net, cfg, s, a, TO_GATEWAY);
    LaunchedHasRules(net, cfg, s, a, ISOLATE);
    OnlyTwoMatch(net, cfg, s.world.chain, a, established);
    VerdictOfAcceptAndDrop(net, cfg.gateway, Dotted(a), s.world.chain, Packet(a, Gateway(net), established));
  }

  lemma VerdictOfAcceptAndDrop(net: Subnet, gateway: string, ip: string, chain: seq<Rule>, p: Packet)
    requires net.ones <= 32
    requires TwoMatch(net, chain, p, IsolationRule(gateway, ip, TO_GATEWAY), IsolationRule(gateway, ip, ISOLATE))
    ensures Verdict(net, chain, p) ==
            Some(if Precedes(chain, IsolationRule(gateway, ip, TO_GATEWAY), IsolationRule(gateway, ip, ISOLATE)) then Accept
                 else Drop)
  {
    VerdictOfTwo(net, chain, p, IsolationRule(gateway, ip, TO_GATEWAY), IsolationRule(gateway, ip, ISOLATE));
  }

  lemma GatewayIsInside(net: Subnet, cfg: Config, a: nat, established: bool)
    requires Configured(net, cfg) && cfg.pool != []
    ensures var p := Packet(a, Gateway(net), established);
            && Matches(net, IsolationRule(cfg.gateway, Dotted(a), TO_GATEWAY), p)
            && Matches(net, IsolationRule(cfg.gateway, Dotted(a), ISOLATE), p)
  {
  }

  /** A launched VM reaches the gateway, unless a failed deletion once left a DROP of its address. */
  lemma GatewayIsReached(net: Subnet, cfg: Config, s: System, a: nat, established: bool)
    requires Configured(net, cfg) && Inv(cfg, s) && Launched(s, a) && a < TWO_32
    requires s.past.left[IsolationRule(cfg.gateway, Dotted(a), ISOLATE)] == 0
    ensures Verdict(net, s.world.chain, Packet(a, Gateway(net), established)) == Some(Accept)
  {
    LaunchedHasRules(net, cfg, s, a, TO_GATEWAY);
    LaunchedHasRules(net, cfg, s, a, ISOLATE);
    assert Ordered(cfg, s, Dotted(a));
    GatewayReachedIff(net, cfg, s, a, established);
  }

  /** The policy, for every launched VM of every run. */
  lemma LaunchedVmPolicy(net: Subnet, cfg: Config, events: seq<Event>, a: nat, x: nat)
    requires Configured(net, cfg) && a < TWO_32 && x < TWO_32 && Launched(Run(cfg, events), a)
    ensures var chain := Run(cfg, events).world.chain;
            && (InSubnet(net, x) && x != Gateway(net) ==> Verdict(net, chain, Packet(a, x, false)) == Some(Drop))
            && (!InSubnet(net, x) ==>
                  && Verdict(net, chain, Packet(a, x, false)) == Verdict(net, chain, Packet(a, x, true)) == Some(Accept)
                  && Verdict(net, chain, Packet(x, a, true)) == Some(Accept)
                  && Verdict(net, chain, Packet(x, a, false)) == None)
            && (x == Gateway(net) ==>
                  Verdict(net, chain, Packet(x, a, false)) == Verdict(net, chain, Packet(x, a, true)) == Some(Accept))
            && (x == Gateway(net) && DropDeletionsSucceed(cfg, events, Dotted(a)) ==>
                  Verdict(net, chain, Packet(a, x, false)) == Verdict(net, chain, Packet(a, x, true)) == Some(Accept))
  {
    var s := Run(cfg, events);
    GatewayIsNoGuest(net, cfg);
    RunKeepsInv(cfg, events);
    if x == Gateway(net) {
      InboundIsAccepted(net, cfg, s, a, x, false);
      InboundIsAccepted(net, cfg, s, a, x, true);
      if DropDeletionsSucceed(cfg, events, Dotted(a)) {
        LaunchedHasRules(net, cfg, s, a, ISOLATE);
        OnlyFailedDeletionsLeaveDrops(cfg, events, Dotted(a));
        GatewayIsReached(net, cfg, s, a, false);
        GatewayIsReached(net, cfg, s, a, true);
      }
    } else if InSubnet(net, x) {
      NewPacketInsideIsDropped(net, cfg, s, a, x);
    } else {
      OutsideIsReached(net, cfg, s, a, x, false);
      OutsideIsReached(net, cfg, s, a, x, true);
      InboundIsAccepted(net, cfg, s, a, x, true);
      NewFromOutsideFallsThrough(net, cfg, s, a, x);
    }
  }

  // ---------- packets over time ----------

  /** The life of the host: lifecycle events interleaved with packets. */
  datatype HostEvent = Life(event: Event) | Send(packet: Packet)

  /** flows: the address pairs connection tracking knows, both directions; accepted: every packet
      that passed. */
  datatype Host = Host(system: System, flows: set<(nat, nat)>, accepted: seq<Packet>)

  /** Who can put a packet on the bridge: a launched VM under its own address, the gateway, or the
      outside. A packet is ESTABLISHED only when its flow is known. */
  ghost predicate CanSend(net: Subnet, h: Host, p: Packet)
    requires net.ones <= 32
  {
    && p.src < TWO_32 && p.dst < TWO_32
    && (Launched(h.system, p.src) || p.src == Gateway(net) || !InSubnet(net, p.src))
    && (p.established ==> (p.src, p.dst) in h.flows)
  }

  /** policy: what the chain does with a packet no rule matches. */
  ghost function HostStep(net: Subnet, cfg: Config, policy: Target, h: Host, e: HostEvent): Host
    requires net.ones <= 32
  {
    match e
    case Life(event) => h.(system := Step(cfg, h.system, event))
    case Send(p) =>
      var verdict := Verdict(net, h.system.world.chain, p);
      if CanSend(net, h, p) && (if verdict.Some? then verdict.value else policy) == Accept then
        h.(flows := h.flows + {(p.src, p.dst), (p.dst, p.src)}, accepted := h.accepted + [p])
      else h
  }

  ghost function HostRun(net: Subnet, cfg: Config, policy: Target, events: seq<HostEvent>): Host
    requires net.ones <= 32
  {
    if events == [] then Host(START, {}, [])
    else HostStep(net, cfg, policy, HostRun(net, cfg, policy, events[..|events| - 1]), events[|events| - 1])
  }

  /** Both ends are guest addresses of the subnet. */
  predicate Guests(net: Subnet, x: nat, y: nat)
    requires net.ones <= 32
  {
    InSubnet(net, x) && InSubnet(net, y) && x != Gateway(net) && y != Gateway(net)
  }

  /** What GuestsNeverTalk keeps. */
  ghost predicate Apart(net: Subnet, cfg: Config, h: Host)
    requires net.ones <= 32
  {
    && Inv(cfg, h.system)
    && (forall f :: f in h.flows ==> !Guests(net, f.0, f.1))
    && (forall p :: p in h.accepted ==> !Guests(net, p.src, p.dst))
  }

  lemma GuestPacketIsDropped(net: Subnet, cfg: Config, h: Host, p: Packet)
    requires Configured(net, cfg) && Apart(net, cfg, h) && CanSend(net, h, p) && Guests(net, p.src, p.dst)
    ensures Verdict(net, h.system.world.chain, p) == Some(Drop)
  {
    assert !p.established;
    NewPacketInsideIsDropped(net, cfg, h.system, p.src, p.dst);
  }

  lemma SendKeepsApart(net: Subnet, cfg: Config, policy: Target, h: Host, p: Packet)
    requires Configured(net, cfg) && Apart(net, cfg, h)
    ensures Apart(net, cfg, HostStep(net, cfg, policy, h, Send(p)))
  {
    if CanSend(net, h, p) && Guests(net, p.src, p.dst) {
      GuestPacketIsDropped(net, cfg, h, p);
    }
  }

  lemma LifeKeepsApart(net: Subnet, cfg: Config, policy: Target, h: Host, e: Event)
    requires Configured(net, cfg) && Apart(net, cfg, h)
    ensures Apart(net, cfg, HostStep(net, cfg, policy, h, Life(e)))
  {
    GatewayIsNoGuest(net, cfg);
    if e.Advance? && e.id in h.system.calls {
      AdvanceKeepsInv(cfg, h.system, e.id, e.ok);
    } else if !e.Advance? {
      BeginAndHaltKeepInv(cfg, h.system, e);
    }
  }

  lemma {:induction false} HostRunKeepsApart(net: Subnet, cfg: Config, policy: Target, events: seq<HostEvent>)
    requires Configured(net, cfg)
    ensures Apart(net, cfg, HostRun(net, cfg, policy, events))
  {
    if events == [] {
      GatewayIsNoGuest(net, cfg);
      RunKeepsInv(cfg, []);
    } else {
      var prefix, e := events[..|events| - 1], events[|events| - 1];
      HostRunKeepsApart(net, cfg, policy, prefix);
      match e {
        case Life(event) => LifeKeepsApart(net, cfg, policy, HostRun(net, cfg, policy, prefix), event);
        case Send(p) => SendKeepsApart(net, cfg, policy, HostRun(net, cfg, policy, prefix), p);
      }
    }
  }

  /** No packet between two guests is ever accepted, over any interleaving of packets, creates, stops,
      failures and address reuse, and whatever the chain's policy. */
  lemma GuestsNeverTalk(net: Subnet, cfg: Config, policy: Target, events: seq<HostEvent>)
    requires Configured(net, cfg)
    ensures forall p :: p in HostRun(net, cfg, policy, events).accepted ==> !Guests(net, p.src, p.dst)
  {
    HostRunKeepsApart(net, cfg, policy, events);
  }

  /** What a sent packet does: it passes exactly when the first matching rule accepts it, or the policy when
      none matches, and then it and its reply belong to a known flow. */
  lemma SendingOpensFlow(net: Subnet, cfg: Config, policy: Target, h: Host, p: Packet)
    requires net.ones <= 32 && CanSend(net, h, p)
    ensures var t, verdict := HostStep(net, cfg, policy, h, Send(p)), Verdict(net, h.system.world.chain, p);
            if verdict == Some(Accept) || (verdict == None && policy == Accept) then
              && t.system == h.system && t.accepted == h.accepted + [p]
              && (p.src, p.dst) in t.flows && (p.dst, p.src) in t.flows
            else t == h
  {
  }

  /** A launched VM can hold a conversation with any outside address, whatever the policy and everything that
      happened before: its packet passes, and so does the reply. */
  lemma OutsideConversation(net: Subnet, cfg: Config, policy: Target, events: seq<HostEvent>, a: nat, x: nat)
    requires Configured(net, cfg) && a < TWO_32 && x < TWO_32 && !InSubnet(net, x)
    requires Launched(HostRun(net, cfg, policy, events).system, a)
    ensures var h := HostRun(net, cfg, policy, events);
            var h1 := HostStep(net, cfg, policy, h, Send(Packet(a, x, false)));
            var h2 := HostStep(net, cfg, policy, h1, Send(Packet(x, a, true)));
            h2.accepted == h.accepted + [Packet(a, x, false), Packet(x, a, true)]
  {
    var h := HostRun(net, cfg, policy, events);
    HostRunKeepsApart(net, cfg, policy, events);
    OutsideIsReached(net, cfg, h.system, a, x, false);
    SendingOpensFlow(net, cfg, policy, h, Packet(a, x, false));
    var h1 := HostStep(net, cfg, policy, h, Send(Packet(a, x, false)));
    InboundIsAccepted(net, cfg, h1.system, a, x, true);
    SendingOpensFlow(net, cfg, policy, h1, Packet(x, a, true));
  }
}

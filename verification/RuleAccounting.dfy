/** Rule accounting: in every interleaving the chain holds, of each address's five rules, exactly the
    recorded left-overs plus the share of the address's holder. */
module RuleAccounting {
  import opened Wrappers
  import opened AddressPool
  import opened Firewall
  import opened Protocol
  import opened Invariant

  predicate InShare(g: Holding, k: nat)
  {
    g.Holds? && g.lo <= k < g.hi
  }

  ghost function RuleFor(s: System, k: nat): Holder -> bool
  {
    h => InShare(HoldingOf(s, h), k)
  }

  /** The holder of ip answers for rule k of ip. */
  ghost predicate HasRule(s: System, ip: string, k: nat)
  {
    HasAt(s.past.holder, RuleFor(s, k), ip)
  }

  ghost predicate RulesCounted(cfg: Config, s: System)
  {
    forall ip, k: nat :: ip in cfg.pool && k < RULES ==>
                           var r := IsolationRule(cfg.gateway, ip, k);
                           multiset(s.world.chain)[r] == s.past.left[r] + (if HasRule(s, ip, k) then 1 else 0)
  }

  ghost predicate WellStepped(s: System)
  {
    forall id :: id in s.calls && (s.calls[id].AddRule? || s.calls[id].DeleteRule?) ==> s.calls[id].step < RULES
  }

  ghost predicate IsOurs(cfg: Config, r: Rule)
  {
    exists ip, k: nat :: ip in cfg.pool && k < RULES && r == IsolationRule(cfg.gateway, ip, k)
  }

  /** Only orchestrator rules are in the chain. */
  ghost predicate ChainIsOurs(cfg: Config, s: System)
  {
    forall r :: r in s.world.chain ==> IsOurs(cfg, r)
  }

  lemma AppendCounts(chain: seq<Rule>, x: Rule, r: Rule)
    ensures multiset(chain + [x])[r] == multiset(chain)[r] + (if r == x then 1 else 0)
  {
  }

  lemma DeleteCounts(chain: seq<Rule>, x: Rule, r: Rule)
    requires x in chain
    ensures multiset(DeleteFirst(chain, x))[r] + (if r == x then 1 else 0) == multiset(chain)[r]
  {
    DeleteFirstCounts(chain, x);
  }

  lemma RulesEqualIff(gateway: string, ip: string, i: nat, ip': string, j: nat)
    requires i < RULES && j < RULES && ip != gateway && ip' != gateway
    ensures IsolationRule(gateway, ip, i) == IsolationRule(gateway, ip', j) <==> ip == ip' && i == j
  {
    if IsolationRule(gateway, ip, i) == IsolationRule(gateway, ip', j) {
      IsolationRulesDistinct(gateway, ip, i, ip', j);
    }
  }

  lemma {:induction false} SpanCounts(gateway: string, ip: string, n: nat, ip': string, k: nat)
    requires n <= RULES && k < RULES && ip != gateway && ip' != gateway
    ensures multiset(RuleSpan(gateway, ip, 0, n))[IsolationRule(gateway, ip', k)] == if ip' == ip && k < n then 1 else 0
  {
    if n > 0 {
      SpanCounts(gateway, ip, n - 1, ip', k);
      SpanGrows(gateway, ip, 0, n - 1);
      AppendCounts(RuleSpan(gateway, ip, 0, n - 1), IsolationRule(gateway, ip, n - 1), IsolationRule(gateway, ip', k));
      RulesEqualIff(gateway, ip, n - 1, ip', k);
    }
  }

  predicate MovesRule(c: Call)
  {
    c.AddRule? || c.DeleteRule?
  }

  lemma OtherStepsKeepRules(cfg: Config, w: World, h: History, id: nat, c: Call, ok: bool)
    requires !MovesRule(c)
    ensures Effect(cfg, w, c, ok).chain == w.chain && Remember(cfg, w, h, id, c, ok).left == h.left
  {
  }

  lemma OtherStepsKeepSpan(cfg: Config, w: World, c: Call, ok: bool, k: nat)
    requires !MovesRule(c) && !MovesAddress(w, c) && k < RULES
    ensures InShare(CallHolding(Next(cfg, w, c, ok)), k) == InShare(CallHolding(c), k)
  {
  }

  lemma RegisterKeepsHasRule(cfg: Config, s: System, id: nat, ok: bool, k: nat)
    requires AddressHeld(cfg, s) && id in s.calls && s.calls[id].Register?
    ensures forall ip :: HasRule(Step(cfg, s, Advance(id, ok)), ip, k) == HasRule(s, ip, k)
  {
    AdvanceTouches(cfg, s, id, ok);
    RegisterHoldings(cfg, s, id, ok);
    var c, t := s.calls[id], Step(cfg, s, Advance(id, ok));
    var m, f, u, v := s.past.holder, AddressIn(s), RuleFor(s, k), RuleFor(t, k);
    if c.user in s.world.instances {
      ShiftKeepsAt(m, f, u, v, OfCall(id), OfInstance(c.user), OfOverwritten(s.world.instances[c.user]));
    } else {
      MoveKeepsAt(m, f, u, v, OfCall(id), OfInstance(c.user));
    }
  }

  lemma TakeInstanceKeepsHasRule(cfg: Config, s: System, id: nat, ok: bool, k: nat)
    requires AddressHeld(cfg, s) && id in s.calls
    requires s.calls[id].TakeInstance? && s.calls[id].user in s.world.instances
    ensures forall ip :: HasRule(Step(cfg, s, Advance(id, ok)), ip, k) == HasRule(s, ip, k)
  {
    AdvanceTouches(cfg, s, id, ok);
    TakeInstanceHoldings(cfg, s, id, ok);
    MoveKeepsAt(s.past.holder, AddressIn(s), RuleFor(s, k), RuleFor(Step(cfg, s, Advance(id, ok)), k),
                OfInstance(s.calls[id].user), OfCall(id));
  }

  lemma ReleaseKeepsHasRule(cfg: Config, s: System, id: nat, ok: bool, k: nat)
    requires AddressHeld(cfg, s) && id in s.calls && s.calls[id].ReleaseAddress?
    ensures forall ip :: HasRule(Step(cfg, s, Advance(id, ok)), ip, k) == HasRule(s, ip, k)
  {
    AdvanceTouches(cfg, s, id, ok);
    LoseKeepsAt(s.past.holder, AddressIn(s), RuleFor(s, k), RuleFor(Step(cfg, s, Advance(id, ok)), k), OfCall(id));
  }

  lemma AllocateKeepsHasRule(cfg: Config, s: System, id: nat, ok: bool, k: nat)
    requires AddressHeld(cfg, s) && id in s.calls && s.calls[id].Allocate?
    ensures forall ip :: HasRule(Step(cfg, s, Advance(id, ok)), ip, k) == HasRule(s, ip, k)
  {
    var t := Step(cfg, s, Advance(id, ok));
    AdvanceTouches(cfg, s, id, ok);
    AllocationBringsNoRule(cfg, s.world, s.calls[id], ok, k);
    FirstFreeIsLowest(cfg.pool, 0, s.world.leases.Keys);
    match FirstFree(cfg.pool, 0, s.world.leases.Keys) {
      case None =>
      case Some(ip) => GainKeepsAt(s.past.holder, RuleFor(s, k), RuleFor(t, k), OfCall(id), ip);
    }
  }

  lemma AllocationBringsNoRule(cfg: Config, w: World, c: Call, ok: bool, k: nat)
    requires c.Allocate?
    ensures !InShare(CallHolding(c), k) && !InShare(CallHolding(Next(cfg, w, c, ok)), k)
  {
  }

  /** A step that neither adds nor deletes a rule changes nobody's share. */
  lemma OtherStepsKeepHasRule(cfg: Config, s: System, id: nat, ok: bool, k: nat)
    requires AddressHeld(cfg, s) && id in s.calls && !MovesRule(s.calls[id]) && k < RULES
    ensures forall ip :: HasRule(Step(cfg, s, Advance(id, ok)), ip, k) == HasRule(s, ip, k)
  {
    var c := s.calls[id];
    if c.Register? {
      RegisterKeepsHasRule(cfg, s, id, ok, k);
    } else if c.ReleaseAddress? {
      ReleaseKeepsHasRule(cfg, s, id, ok, k);
    } else if c.Allocate? {
      AllocateKeepsHasRule(cfg, s, id, ok, k);
    } else if MovesAddress(s.world, c) {
      TakeInstanceKeepsHasRule(cfg, s, id, ok, k);
    } else {
      AdvanceTouches(cfg, s, id, ok);
      OtherStepsKeepLeases(cfg, s.world, s.past, id, c, ok);
      OtherStepsKeepSpan(cfg, s.world, c, ok, k);
    }
  }

  lemma RuleStepChains(cfg: Config, w: World, h: History, id: nat, c: Call, ok: bool)
    requires MovesRule(c)
    ensures var x, chain := IsolationRule(cfg.gateway, c.ip, c.step), Effect(cfg, w, c, ok).chain;
            chain == if !ok then w.chain else if c.AddRule? then w.chain + [x] else DeleteFirst(w.chain, x)
    ensures h.left <= Remember(cfg, w, h, id, c, ok).left
  {
  }

  lemma RuleStepKeepsHolders(cfg: Config, w: World, h: History, id: nat, c: Call, ok: bool)
    requires MovesRule(c)
    ensures Remember(cfg, w, h, id, c, ok).holder == h.holder
  {
  }

  lemma RuleStepShares(cfg: Config, w: World, c: Call, ok: bool, k: nat)
    requires MovesRule(c) && c.step < RULES && k < RULES
    ensures InShare(CallHolding(c), k) == (if c.AddRule? then k < c.step else c.step <= k)
    ensures InShare(CallHolding(Next(cfg, w, c, ok)), k) == (if c.AddRule? then ok && k <= c.step else c.step < k)
  {
  }

  /** What adding or deleting a rule does to the shares: only rules of the call's address change. */
  lemma RuleStepHasRule(cfg: Config, s: System, id: nat, ok: bool, k: nat)
    requires AddressHeld(cfg, s) && WellStepped(s) && id in s.calls && MovesRule(s.calls[id]) && k < RULES
    ensures var c, t := s.calls[id], Step(cfg, s, Advance(id, ok));
            && c.ip in cfg.pool
            && (forall ip :: ip != c.ip ==> HasRule(t, ip, k) == HasRule(s, ip, k))
            && HasRule(s, c.ip, k) == (if c.AddRule? then k < c.step else c.step <= k)
            && HasRule(t, c.ip, k) == (if c.AddRule? then ok && k <= c.step else c.step < k)
  {
    AdvanceTouches(cfg, s, id, ok);
    var c, t := s.calls[id], Step(cfg, s, Advance(id, ok));
    assert AddressIn(s)(OfCall(id)) == Some(c.ip);
    RuleStepKeepsHolders(cfg, s.world, s.past, id, c, ok);
    RuleStepShares(cfg, s.world, c, ok, k);
    LoseKeepsAt(s.past.holder, AddressIn(s), RuleFor(s, k), RuleFor(t, k), OfCall(id));
  }

  /** A rule that a call is about to delete is in the chain. */
  lemma DeletedRuleIsPresent(cfg: Config, s: System, id: nat)
    requires AddressHeld(cfg, s) && WellStepped(s) && RulesCounted(cfg, s) && id in s.calls && s.calls[id].DeleteRule?
    ensures IsolationRule(cfg.gateway, s.calls[id].ip, s.calls[id].step) in s.world.chain
  {
    var c := s.calls[id];
    assert AddressIn(s)(OfCall(id)) == Some(c.ip);
    assert HasRule(s, c.ip, c.step);
  }

  lemma AddRuleCounts(cfg: Config, s: System, id: nat, ok: bool, ip: string, k: nat)
    requires id in s.calls && s.calls[id].AddRule? && s.calls[id].step < RULES && k < RULES
    requires s.calls[id].ip != cfg.gateway && ip != cfg.gateway
    ensures var c, t, r := s.calls[id], Step(cfg, s, Advance(id, ok)), IsolationRule(cfg.gateway, ip, k);
            && multiset(t.world.chain)[r] ==
               multiset(s.world.chain)[r] + (if ok && ip == c.ip && k == c.step then 1 else 0)
            && t.past.left[r] == s.past.left[r] + (if !ok && ip == c.ip && k < c.step then 1 else 0)
  {
    var c := s.calls[id];
    RulesEqualIff(cfg.gateway, c.ip, c.step, ip, k);
    AppendCounts(s.world.chain, IsolationRule(cfg.gateway, c.ip, c.step), IsolationRule(cfg.gateway, ip, k));
    SpanCounts(cfg.gateway, c.ip, c.step, ip, k);
  }

  lemma DeleteRuleCounts(cfg: Config, s: System, id: nat, ok: bool, ip: string, k: nat)
    requires id in s.calls && s.calls[id].DeleteRule? && s.calls[id].step < RULES && k < RULES
    requires s.calls[id].ip != cfg.gateway && ip != cfg.gateway
    requires IsolationRule(cfg.gateway, s.calls[id].ip, s.calls[id].step) in s.world.chain
    ensures var c, t, r := s.calls[id], Step(cfg, s, Advance(id, ok)), IsolationRule(cfg.gateway, ip, k);
            && multiset(t.world.chain)[r] + (if ok && ip == c.ip && k == c.step then 1 else 0) ==
               multiset(s.world.chain)[r]
            && t.past.left[r] == s.past.left[r] + (if !ok && ip == c.ip && k == c.step then 1 else 0)
  {
    var c := s.calls[id];
    RulesEqualIff(cfg.gateway, c.ip, c.step, ip, k);
    DeleteCounts(s.world.chain, IsolationRule(cfg.gateway, c.ip, c.step), IsolationRule(cfg.gateway, ip, k));
  }

  lemma AdvanceKeepsRuleCount(cfg: Config, s: System, id: nat, ok: bool, ip: string, k: nat)
    requires AddressHeld(cfg, s) && WellStepped(s) && RulesCounted(cfg, s) && id in s.calls
    requires cfg.gateway !in cfg.pool && ip in cfg.pool && k < RULES
    ensures var r, t := IsolationRule(cfg.gateway, ip, k), Step(cfg, s, Advance(id, ok));
            multiset(t.world.chain)[r] == t.past.left[r] + (if HasRule(t, ip, k) then 1 else 0)
  {
    var c := s.calls[id];
    if MovesRule(c) {
      RuleStepHasRule(cfg, s, id, ok, k);
      if c.AddRule? {
        AddRuleCounts(cfg, s, id, ok, ip, k);
      } else {
        DeletedRuleIsPresent(cfg, s, id);
        DeleteRuleCounts(cfg, s, id, ok, ip, k);
      }
    } else {
      OtherStepsKeepHasRule(cfg, s, id, ok, k);
      OtherStepsKeepRules(cfg, s.world, s.past, id, c, ok);
    }
  }

  lemma AdvanceKeepsRulesCounted(cfg: Config, s: System, id: nat, ok: bool)
    requires AddressHeld(cfg, s) && WellStepped(s) && RulesCounted(cfg, s) && id in s.calls
    requires cfg.gateway !in cfg.pool
    ensures RulesCounted(cfg, Step(cfg, s, Advance(id, ok)))
  {
    forall ip, k: nat | ip in cfg.pool && k < RULES
      ensures var r, t := IsolationRule(cfg.gateway, ip, k), Step(cfg, s, Advance(id, ok));
              multiset(t.world.chain)[r] == t.past.left[r] + (if HasRule(t, ip, k) then 1 else 0)
    {
      AdvanceKeepsRuleCount(cfg, s, id, ok, ip, k);
    }
  }

  lemma AdvanceKeepsWellStepped(cfg: Config, s: System, id: nat, ok: bool)
    requires WellStepped(s) && id in s.calls
    ensures WellStepped(Step(cfg, s, Advance(id, ok)))
  {
  }

  lemma AdvanceKeepsChainOurs(cfg: Config, s: System, id: nat, ok: bool)
    requires AddressHeld(cfg, s) && WellStepped(s) && ChainIsOurs(cfg, s) && id in s.calls
    ensures ChainIsOurs(cfg, Step(cfg, s, Advance(id, ok)))
  {
    var c := s.calls[id];
    if MovesRule(c) {
      RuleStepChains(cfg, s.world, s.past, id, c, ok);
      if c.AddRule? {
        assert AddressIn(s)(OfCall(id)) == Some(c.ip);
        assert IsOurs(cfg, IsolationRule(cfg.gateway, c.ip, c.step));
      } else {
        DeleteFirstKeepsOnly(s.world.chain, IsolationRule(cfg.gateway, c.ip, c.step));
      }
    } else {
      OtherStepsKeepRules(cfg, s.world, s.past, id, c, ok);
    }
  }

  // ---------- order of the chain, and the processes ----------

  /** While a VM has all its rules and no DROP rule of its address was ever left behind, an ACCEPT to
      the gateway comes before its DROP. */
  ghost predicate Ordered(cfg: Config, s: System, ip: string)
  {
    HasRule(s, ip, TO_GATEWAY) && HasRule(s, ip, ISOLATE)
    && s.past.left[IsolationRule(cfg.gateway, ip, ISOLATE)] == 0
    ==> AcceptsFirst(cfg, s.world.chain, ip)
  }

  ghost predicate AcceptsFirst(cfg: Config, chain: seq<Rule>, ip: string)
  {
    Precedes(chain, IsolationRule(cfg.gateway, ip, TO_GATEWAY), IsolationRule(cfg.gateway, ip, ISOLATE))
  }

  ghost predicate OrderKept(cfg: Config, s: System)
  {
    forall ip :: ip in cfg.pool ==> Ordered(cfg, s, ip)
  }

  /** The holder of a running process has the whole of its resources and is past its launch and not
      yet past its kill. */
  ghost predicate RunningHeld(s: System)
  {
    forall i :: i in s.world.running ==>
                  && i.ip in s.past.holder && Secures(s, s.past.holder[i.ip], i)
  }

  ghost predicate Secures(s: System, h: Holder, i: Instance)
  {
    HoldingOf(s, h) == Full(i) && (h.OfCall? ==> s.calls[h.id].Register? || s.calls[h.id].KillVm?)
  }

  lemma AddRuleKeepsOrder(cfg: Config, s: System, id: nat, ok: bool, ip: string)
    requires AddressHeld(cfg, s) && WellStepped(s) && RulesCounted(cfg, s) && id in s.calls
    requires cfg.gateway !in cfg.pool && ip in cfg.pool && Ordered(cfg, s, ip) && s.calls[id].AddRule?
    ensures Ordered(cfg, Step(cfg, s, Advance(id, ok)), ip)
  {
    var c := s.calls[id];
    RuleStepHasRule(cfg, s, id, ok, TO_GATEWAY);
    RuleStepHasRule(cfg, s, id, ok, ISOLATE);
    RuleStepChains(cfg, s.world, s.past, id, c, ok);
    AppendKeepsOrder(s.world.chain, IsolationRule(cfg.gateway, c.ip, c.step), IsolationRule(cfg.gateway, ip, TO_GATEWAY),
                     IsolationRule(cfg.gateway, ip, ISOLATE));
    HeldRulesInChain(cfg, s, ip);
  }

  lemma HeldRuleInChain(cfg: Config, s: System, ip: string, k: nat)
    requires RulesCounted(cfg, s) && ip in cfg.pool && k < RULES && HasRule(s, ip, k)
    ensures IsolationRule(cfg.gateway, ip, k) in s.world.chain
  {
    assert multiset(s.world.chain)[IsolationRule(cfg.gateway, ip, k)] > 0;
  }

  lemma HeldRulesInChain(cfg: Config, s: System, ip: string)
    requires RulesCounted(cfg, s) && ip in cfg.pool
    ensures HasRule(s, ip, TO_GATEWAY) ==> IsolationRule(cfg.gateway, ip, TO_GATEWAY) in s.world.chain
    ensures var drop := IsolationRule(cfg.gateway, ip, ISOLATE);
            !HasRule(s, ip, ISOLATE) && s.past.left[drop] == 0 ==> drop !in s.world.chain
  {
    var drop := IsolationRule(cfg.gateway, ip, ISOLATE);
    if HasRule(s, ip, TO_GATEWAY) {
      HeldRuleInChain(cfg, s, ip, TO_GATEWAY);
    }
    assert multiset(s.world.chain)[drop] == s.past.left[drop] + (if HasRule(s, ip, ISOLATE) then 1 else 0);
  }

  lemma DeleteRuleKeepsOrder(cfg: Config, s: System, id: nat, ok: bool, ip: string)
    requires AddressHeld(cfg, s) && WellStepped(s) && id in s.calls
    requires cfg.gateway !in cfg.pool && ip in cfg.pool && Ordered(cfg, s, ip) && s.calls[id].DeleteRule?
    ensures Ordered(cfg, Step(cfg, s, Advance(id, ok)), ip)
  {
    var c := s.calls[id];
    RuleStepHasRule(cfg, s, id, ok, TO_GATEWAY);
    RuleStepHasRule(cfg, s, id, ok, ISOLATE);
    RuleStepChains(cfg, s.world, s.past, id, c, ok);
    if ip != c.ip && AcceptsFirst(cfg, s.world.chain, ip) {
      OtherDeletionKeepsOrder(cfg, s.world.chain, c.ip, c.step, ip);
    }
  }

  lemma OtherDeletionKeepsOrder(cfg: Config, chain: seq<Rule>, ip': string, k: nat, ip: string)
    requires ip' != ip && ip' != cfg.gateway && ip != cfg.gateway && k < RULES && AcceptsFirst(cfg, chain, ip)
    ensures AcceptsFirst(cfg, DeleteFirst(chain, IsolationRule(cfg.gateway, ip', k)), ip)
  {
    var accept, drop := IsolationRule(cfg.gateway, ip, TO_GATEWAY), IsolationRule(cfg.gateway, ip, ISOLATE);
    var x := IsolationRule(cfg.gateway, ip', k);
    if x == accept {
      IsolationRulesDistinct(cfg.gateway, ip', k, ip, TO_GATEWAY);
    }
    DeleteKeepsOrder(chain, x, accept, drop);
  }

  lemma AdvanceKeepsOrder(cfg: Config, s: System, id: nat, ok: bool)
    requires AddressHeld(cfg, s) && WellStepped(s) && RulesCounted(cfg, s) && OrderKept(cfg, s) && id in s.calls
    requires cfg.gateway !in cfg.pool
    ensures OrderKept(cfg, Step(cfg, s, Advance(id, ok)))
  {
    forall ip | ip in cfg.pool
      ensures Ordered(cfg, Step(cfg, s, Advance(id, ok)), ip)
    {
      if s.calls[id].AddRule? {
        AddRuleKeepsOrder(cfg, s, id, ok, ip);
      } else if s.calls[id].DeleteRule? {
        DeleteRuleKeepsOrder(cfg, s, id, ok, ip);
      } else {
        OtherStepsKeepHasRule(cfg, s, id, ok, TO_GATEWAY);
        OtherStepsKeepHasRule(cfg, s, id, ok, ISOLATE);
        OtherStepsKeepRules(cfg, s.world, s.past, id, s.calls[id], ok);
      }
    }
  }

  lemma OtherStepsKeepRunning(cfg: Config, w: World, c: Call, ok: bool)
    requires !c.Launch? && !c.KillVm?
    ensures Effect(cfg, w, c, ok).running == w.running
  {
  }

  lemma RegisterKeepsSecured(cfg: Config, s: System, id: nat, ok: bool, i: Instance)
    requires AddressHeld(cfg, s) && id in s.calls && s.calls[id].Register?
    requires i.ip in s.past.holder && Secures(s, s.past.holder[i.ip], i)
    ensures var t := Step(cfg, s, Advance(id, ok)); i.ip in t.past.holder && Secures(t, t.past.holder[i.ip], i)
  {
    AdvanceTouches(cfg, s, id, ok);
    RegisterHoldings(cfg, s, id, ok);
    assert AddressIn(s)(OfCall(id)) == Some(s.calls[id].ip);
    assert AddressIn(s)(s.past.holder[i.ip]) == Some(i.ip);
    if s.calls[id].user in s.world.instances {
      assert AddressIn(s)(OfInstance(s.calls[id].user)) == Some(s.world.instances[s.calls[id].user].ip);
    }
  }

  lemma TakeInstanceKeepsSecured(cfg: Config, s: System, id: nat, ok: bool, i: Instance)
    requires AddressHeld(cfg, s) && id in s.calls
    requires s.calls[id].TakeInstance? && s.calls[id].user in s.world.instances
    requires i.ip in s.past.holder && Secures(s, s.past.holder[i.ip], i)
    ensures var t := Step(cfg, s, Advance(id, ok)); i.ip in t.past.holder && Secures(t, t.past.holder[i.ip], i)
  {
    AdvanceTouches(cfg, s, id, ok);
    TakeInstanceHoldings(cfg, s, id, ok);
    assert AddressIn(s)(OfInstance(s.calls[id].user)) == Some(s.world.instances[s.calls[id].user].ip);
    assert AddressIn(s)(s.past.holder[i.ip]) == Some(i.ip);
  }

  lemma OtherStepsKeepSecured(cfg: Config, s: System, id: nat, ok: bool, i: Instance)
    requires AddressHeld(cfg, s) && id in s.calls
    requires !s.calls[id].Register? && !(s.calls[id].TakeInstance? && s.calls[id].user in s.world.instances)
    requires i.ip in s.past.holder && Secures(s, s.past.holder[i.ip], i) && s.past.holder[i.ip] != OfCall(id)
    ensures var t := Step(cfg, s, Advance(id, ok)); i.ip in t.past.holder && Secures(t, t.past.holder[i.ip], i)
  {
    AdvanceTouches(cfg, s, id, ok);
    HolderStays(cfg, s, id, ok, i.ip);
  }

  /** The holder of an address, when it does not move, goes on holding it. */
  lemma HolderStays(cfg: Config, s: System, id: nat, ok: bool, ip: string)
    requires AddressHeld(cfg, s) && id in s.calls && ip in s.past.holder && s.past.holder[ip] != OfCall(id)
    requires !s.calls[id].Register? && !(s.calls[id].TakeInstance? && s.calls[id].user in s.world.instances)
    ensures var holder := Step(cfg, s, Advance(id, ok)).past.holder; ip in holder && holder[ip] == s.past.holder[ip]
  {
    var c := s.calls[id];
    if c.ReleaseAddress? {
      assert AddressIn(s)(OfCall(id)) == Some(c.ip);
    } else if c.Allocate? {
      FirstFreeIsLowest(cfg.pool, 0, s.world.leases.Keys);
    } else {
      OtherStepsKeepLeases(cfg, s.world, s.past, id, c, ok);
    }
  }

  lemma LaunchKeepsRunning(cfg: Config, s: System, id: nat, ok: bool)
    requires AddressHeld(cfg, s) && RunningHeld(s) && id in s.calls && s.calls[id].Launch?
    ensures RunningHeld(Step(cfg, s, Advance(id, ok)))
  {
    var c, t := s.calls[id], Step(cfg, s, Advance(id, ok));
    AdvanceTouches(cfg, s, id, ok);
    assert AddressIn(s)(OfCall(id)) == Some(c.ip);
    assert t.past.holder == s.past.holder;
    forall i | i in t.world.running
      ensures i.ip in t.past.holder && Secures(t, t.past.holder[i.ip], i)
    {
      if i in s.world.running {
        assert Secures(s, s.past.holder[i.ip], i);
      }
    }
  }

  /** The call that moves does not hold a VM that runs on, unless it registers it. */
  lemma MoverIsNotRunning(cfg: Config, s: System, id: nat, ok: bool, i: Instance)
    requires RunningHeld(s) && id in s.calls && !s.calls[id].Register?
    requires i in s.world.running && i in Effect(cfg, s.world, s.calls[id], ok).running
    ensures s.past.holder[i.ip] != OfCall(id)
  {
    assert Secures(s, s.past.holder[i.ip], i);
  }

  lemma AdvanceKeepsRunning(cfg: Config, s: System, id: nat, ok: bool)
    requires AddressHeld(cfg, s) && RunningHeld(s) && id in s.calls
    ensures RunningHeld(Step(cfg, s, Advance(id, ok)))
  {
    var c, t := s.calls[id], Step(cfg, s, Advance(id, ok));
    if c.Launch? {
      LaunchKeepsRunning(cfg, s, id, ok);
    } else {
      if !c.KillVm? {
        OtherStepsKeepRunning(cfg, s.world, c, ok);
      }
      forall i | i in t.world.running
        ensures i.ip in t.past.holder && Secures(t, t.past.holder[i.ip], i)
      {
        if c.Register? {
          RegisterKeepsSecured(cfg, s, id, ok, i);
        } else if c.TakeInstance? && c.user in s.world.instances {
          TakeInstanceKeepsSecured(cfg, s, id, ok, i);
        } else {
          MoverIsNotRunning(cfg, s, id, ok, i);
          OtherStepsKeepSecured(cfg, s, id, ok, i);
        }
      }
    }
  }

  // ---------- the invariant of every run ----------

  ghost predicate Inv(cfg: Config, s: System)
  {
    && AddressHeld(cfg, s) && TapHeld(s)
    && WellStepped(s) && RulesCounted(cfg, s) && ChainIsOurs(cfg, s) && OrderKept(cfg, s)
    && RunningHeld(s)
  }

  lemma AdvanceKeepsInv(cfg: Config, s: System, id: nat, ok: bool)
    requires cfg.gateway !in cfg.pool && Inv(cfg, s) && id in s.calls
    ensures Inv(cfg, Step(cfg, s, Advance(id, ok)))
  {
    NextNameIsNew(s);
    AdvanceKeepsAddressIndex(cfg, s, id, ok);
    AdvanceKeepsHolderKeys(cfg, s, id, ok);
    AdvanceKeepsPool(cfg, s, id, ok);
    AdvanceKeepsTapIndex(cfg, s, id, ok);
    AdvanceKeepsIssued(cfg, s, id, ok);
    AdvanceKeepsNamesIssued(cfg, s, id, ok);
    AdvanceKeepsDevices(cfg, s, id, ok);
    AdvanceKeepsWellStepped(cfg, s, id, ok);
    AdvanceKeepsRulesCounted(cfg, s, id, ok);
    AdvanceKeepsChainOurs(cfg, s, id, ok);
    AdvanceKeepsOrder(cfg, s, id, ok);
    AdvanceKeepsRunning(cfg, s, id, ok);
  }

  /** A new call holds nothing, and a process that ends takes nothing with it. */
  lemma BeginAndHaltKeepInv(cfg: Config, s: System, e: Event)
    requires Inv(cfg, s) && !e.Advance?
    ensures Inv(cfg, Step(cfg, s, e))
  {
    var t := Step(cfg, s, e);
    BeginAndHaltKeepHoldings(cfg, s, e);
    SameHoldingsKeepResources(cfg, s, t);
    SameHoldingsKeepRules(cfg, s, t);
  }

  lemma BeginAndHaltKeepHoldings(cfg: Config, s: System, e: Event)
    requires !e.Advance? && WellStepped(s) && RunningHeld(s)
    ensures var t := Step(cfg, s, e); SameHoldings(s, t) && WellStepped(t) && RunningHeld(t)
  {
  }

  ghost predicate SameHoldings(s: System, t: System)
  {
    && t.past == s.past && (forall h :: HoldingOf(t, h) == HoldingOf(s, h))
    && t.world.(running := s.world.running) == s.world
  }

  lemma SameHoldingsKeepResources(cfg: Config, s: System, t: System)
    requires AddressHeld(cfg, s) && TapHeld(s) && SameHoldings(s, t)
    ensures AddressHeld(cfg, t) && TapHeld(t)
  {
    InverseSame(s.past.holder, AddressIn(s), AddressIn(t));
    InverseSame(s.past.tapHolder, TapIn(s), TapIn(t));
    assert forall x :: Live(t, x) == Live(s, x);
  }

  lemma SameHoldingsKeepRules(cfg: Config, s: System, t: System)
    requires RulesCounted(cfg, s) && ChainIsOurs(cfg, s) && OrderKept(cfg, s) && SameHoldings(s, t)
    ensures RulesCounted(cfg, t) && ChainIsOurs(cfg, t) && OrderKept(cfg, t)
  {
    assert forall ip, k :: HasRule(t, ip, k) == HasRule(s, ip, k);
    assert forall ip :: Ordered(cfg, s, ip) ==> Ordered(cfg, t, ip);
  }

  lemma {:induction false} RunKeepsInv(cfg: Config, events: seq<Event>)
    requires cfg.gateway !in cfg.pool
    ensures Inv(cfg, Run(cfg, events))
  {
    if events != [] {
      var before, e := Run(cfg, events[..|events| - 1]), events[|events| - 1];
      RunKeepsInv(cfg, events[..|events| - 1]);
      if e.Advance? && e.id in before.calls {
        AdvanceKeepsInv(cfg, before, e.id, e.ok);
      } else if !e.Advance? {
        BeginAndHaltKeepInv(cfg, before, e);
      }
    }
  }
}

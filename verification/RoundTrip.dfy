/** Creates that succeed: what they leave, how a stop undoes it, that VMs do get launched, and what a
    stop that fails to delete the DROP rule does to the next VM at its address. */
module RoundTrip {
  import opened Wrappers
  import opened Numerals
  import opened AddressPool
  import opened Firewall
  import opened Protocol
  import opened Invariant
  import opened RuleAccounting
  import opened Registration
  import opened Lifecycle
  import opened Sequential
  import opened Isolation
  import opened LoneRuns
  import opened CreateOutcomes
  import opened StopOutcomes

  ghost predicate CreateCommandsObey(fate: Fate)
  {
    forall c: Call :: Creating(c) || c.SaveRunning? ==> fate(c)
  }

  /** w with a VM of the user at address ip, on record as running. */
  function WithRunningVm(cfg: Config, w: World, user: string, ip: string): World
  {
    WithVm(cfg, w, user, ip, Record(Running, ip, TapName(w.nextIdx)))
  }

  /** A create whose commands succeed gives the user a VM at the lowest free address, and changes
      nothing else. */
  lemma CreateSucceeds(cfg: Config, w: World, user: string, ip: string, fate: Fate)
    requires CreateCommandsObey(fate) && user !in w.instances && FirstFree(cfg.pool, 0, w.leases.Keys) == Some(ip)
    ensures RunAlone(cfg, w, CheckExists(user), fate) == (WithRunningVm(cfg, w, user, ip), Finished(user, Created))
  {
    LaunchedCreate(cfg, w, user, ip, fate);
  }

  // ---------- a stop undoes a create ----------

  /** What a stop makes of a registered user's VM. */
  lemma StopRuns(cfg: Config, w: World, user: string, fate: Fate)
    requires RedisObeys(fate) && user in w.instances && user in w.records
    ensures var i := w.instances[user];
            var w1 := GivenBack(cfg, w.(instances := w.instances - {user}, running := w.running - {i}),
                                user, i.ip, i.tap, AfterStop(false), fate);
            RunAlone(cfg, w, TakeInstance(user, false), fate) ==
            (w1.(records := w.records[user := w.records[user].(status := Stopped)]), Finished(user, StopDone))
  {
    StopEnds(cfg, w, user, fate);
  }

  /** Nothing of what the user's next create will use is there yet. */
  ghost predicate Ready(w: World, user: string, ip: string)
  {
    && user !in w.instances && ip !in w.leases && TapName(w.nextIdx) !in w.taps
    && Instance(ip, TapName(w.nextIdx)) !in w.running
  }

  /** w but for the traces a stopped VM is meant to leave: its storage, its record and the TAP counter.
      Equal rules may have changed places. */
  ghost predicate Restored(w: World, w': World, user: string, ip: string)
  {
    && w'.leases == w.leases && w'.taps == w.taps && w'.instances == w.instances && w'.running == w.running
    && multiset(w'.chain) == multiset(w.chain)
    && w'.records == w.records[user := Record(Stopped, ip, TapName(w.nextIdx))]
    && w'.storage == w.storage + {user} && w'.nextIdx == w.nextIdx + 1
  }

  lemma StopGivesRulesBack(cfg: Config, chain: seq<Rule>, user: string, ip: string, tap: string, fate: Fate)
    requires RuleDeletionsObey(fate)
    ensures var ok := CleanupFate(user, ip, tap, AfterStop(false), fate);
            multiset(Cleaned(cfg.gateway, chain + RuleSpan(cfg.gateway, ip, 0, RULES), ip, 0, ok)) == multiset(chain)
  {
    var ok := CleanupFate(user, ip, tap, AfterStop(false), fate);
    ChainIsGivenBack(cfg, chain, ip, ok);
    UndeletedIff(cfg.gateway, ip, 0, ok);
  }

  lemma GivingBackRestores(cfg: Config, w: World, user: string, ip: string, fate: Fate)
    requires RuleDeletionsObey(fate) && TapDeletionsObey(fate) && Ready(w, user, ip)
    ensures var v, i := WithRunningVm(cfg, w, user, ip), Instance(ip, TapName(w.nextIdx));
            var v1 := GivenBack(cfg, v.(instances := v.instances - {user}, running := v.running - {i}),
                                user, ip, i.tap, AfterStop(false), fate);
            Restored(w, v1.(records := v.records[user := Record(Stopped, ip, i.tap)]), user, ip)
  {
    var v, tap := WithRunningVm(cfg, w, user, ip), TapName(w.nextIdx);
    StopGivesRulesBack(cfg, w.chain, user, ip, tap, fate);
    assert v.leases - {ip} == w.leases && v.instances - {user} == w.instances;
    assert v.running - {Instance(ip, tap)} == w.running && v.taps - {tap} == w.taps;
    assert fate(DeleteTap(user, ip, tap, AfterStop(false)));
    assert v.records[user := Record(Stopped, ip, tap)] == w.records[user := Record(Stopped, ip, tap)];
  }

  /** Create, then stop: every address, device, rule, process and registration is as before. */
  lemma StopUndoesCreate(cfg: Config, w: World, user: string, ip: string, create: Fate, stop: Fate)
    requires CreateCommandsObey(create) && RedisObeys(stop) && RuleDeletionsObey(stop) && TapDeletionsObey(stop)
    requires Ready(w, user, ip) && FirstFree(cfg.pool, 0, w.leases.Keys) == Some(ip)
    ensures var w1 := RunAlone(cfg, w, CheckExists(user), create).0;
            var (w2, d) := RunAlone(cfg, w1, TakeInstance(user, false), stop);
            d == Finished(user, StopDone) && Restored(w, w2, user, ip)
  {
    CreateSucceeds(cfg, w, user, ip, create);
    StopRuns(cfg, WithRunningVm(cfg, w, user, ip), user, stop);
    GivingBackRestores(cfg, w, user, ip, stop);
  }

  /** Every run leaves its next create such a world. */
  lemma RunIsReady(cfg: Config, events: seq<Event>, user: string, ip: string)
    requires cfg.gateway !in cfg.pool && user !in Run(cfg, events).world.instances
    requires FirstFree(cfg.pool, 0, Run(cfg, events).world.leases.Keys) == Some(ip)
    ensures Ready(Run(cfg, events).world, user, ip)
  {
    var s := Run(cfg, events);
    RunKeepsInv(cfg, events);
    FirstFreeIsLowest(cfg.pool, 0, s.world.leases.Keys);
    NextNameIsNew(s);
    assert Live(s, TapName(s.world.nextIdx)) ==> TapName(s.world.nextIdx) in s.past.issued;
    assert forall i :: i in s.world.running ==> i.ip in s.past.holder;
  }

  /** After any sequence of completed operations with working Redis, create and stop of a user without a
      VM restore addresses, devices, rules, processes and registry. */
  lemma OperationsThenCreateAndStop(cfg: Config, ops: seq<Operation>, user: string, ip: string, create: Fate, stop: Fate)
    requires cfg.gateway !in cfg.pool && Proper(ops) && user !in RunAll(cfg, ops).instances
    requires CreateCommandsObey(create) && RedisObeys(stop) && RuleDeletionsObey(stop) && TapDeletionsObey(stop)
    requires FirstFree(cfg.pool, 0, RunAll(cfg, ops).leases.Keys) == Some(ip)
    ensures var w := RunAll(cfg, ops);
            Restored(w, RunAlone(cfg, RunAlone(cfg, w, CheckExists(user), create).0, TakeInstance(user, false), stop).0,
                     user, ip)
  {
    var events := OperationsAreARun(cfg, ops);
    RunIsReady(cfg, events, user, ip);
    StopUndoesCreate(cfg, RunAll(cfg, ops), user, ip, create, stop);
  }

  /** Everything succeeds. */
  const ALL: Fate := _ => true

  // ---------- VMs do get launched ----------

  /** In every subnet with room for a guest some run launches a VM, at offset 2. */
  lemma SomeVmIsLaunched(net: Subnet, cfg: Config, user: string) returns (events: seq<Event>)
    requires Configured(net, cfg) && PoolSize(net) > 0
    ensures Launched(Run(cfg, events), Base(net) + 2)
  {
    PoolHost(net, 0);
    var ip := Dotted(Base(net) + 2);
    assert FirstFree(cfg.pool, 0, {}) == Some(ip);
    assert RedisObeys(ALL);
    events := OperationsAreARun(cfg, [Operation(CheckExists(user), ALL)]);
    CreatedOnce(cfg, user, ip);
    RunsAt(Run(cfg, events), Base(net) + 2, Instance(ip, TapName(1)));
  }

  lemma RunsAt(s: System, a: nat, i: Instance)
    requires i in s.world.running && i.ip == Dotted(a)
    ensures Launched(s, a)
  {
  }

  lemma CreatedOnce(cfg: Config, user: string, ip: string)
    requires FirstFree(cfg.pool, 0, {}) == Some(ip)
    ensures Instance(ip, TapName(1)) in RunAll(cfg, [Operation(CheckExists(user), ALL)]).running
  {
    var ops := [Operation(CheckExists(user), ALL)];
    assert START.world.leases.Keys == {};
    CreateSucceeds(cfg, START.world, user, ip, ALL);
    assert ops[..0] == [] && RunAll(cfg, []) == START.world;
  }

  // ---------- a DROP left behind ----------

  /** After a setup an ACCEPT to the gateway comes first exactly when the chain before had no DROP of the
      address, or an ACCEPT ahead of it. */
  lemma SetupAcceptsFirstIff(cfg: Config, chain: seq<Rule>, ip: string)
    ensures AcceptsFirst(cfg, chain + RuleSpan(cfg.gateway, ip, 0, RULES), ip) <==>
            IsolationRule(cfg.gateway, ip, ISOLATE) !in chain || AcceptsFirst(cfg, chain, ip)
  {
    var accept, drop := IsolationRule(cfg.gateway, ip, TO_GATEWAY), IsolationRule(cfg.gateway, ip, ISOLATE);
    var all := chain + RuleSpan(cfg.gateway, ip, 0, RULES);
    if AcceptsFirst(cfg, all, ip) {
      var i :| 0 <= i < |all| && all[i] == accept && drop !in all[..i];
      if i < |chain| {
        assert chain[i] == accept && chain[..i] == all[..i];
      } else {
        assert forall x :: x in chain ==> x in all[..i];
      }
    }
    if drop !in chain {
      assert all[|chain|] == accept && all[..|chain|] == chain;
    } else if AcceptsFirst(cfg, chain, ip) {
      var i :| 0 <= i < |chain| && chain[i] == accept && drop !in chain[..i];
      assert all[i] == accept && all[..i] == chain[..i];
    }
  }

  lemma SetupKeepsOurs(cfg: Config, chain: seq<Rule>, ip: string)
    requires ip in cfg.pool && forall r :: r in chain ==> IsOurs(cfg, r)
    ensures forall r :: r in chain + RuleSpan(cfg.gateway, ip, 0, RULES) ==> IsOurs(cfg, r)
    ensures forall k: nat :: k < RULES ==>
                               IsolationRule(cfg.gateway, ip, k) in chain + RuleSpan(cfg.gateway, ip, 0, RULES)
  {
    var span := RuleSpan(cfg.gateway, ip, 0, RULES);
    assert forall k: nat :: k < RULES ==> span[k] == IsolationRule(cfg.gateway, ip, k) && IsOurs(cfg, span[k]);
  }

  /** Whether the VM of the next create will reach its gateway can be told before: it will exactly when
      the chain holds no DROP of the lowest free address, or an ACCEPT of it to the gateway ahead of every
      such DROP. This holds in every reachable state. */
  lemma CreatedVmReachesGatewayIff(net: Subnet, cfg: Config, events: seq<Event>, user: string, a: nat, fate: Fate,
                                   established: bool)
    requires Configured(net, cfg) && CreateCommandsObey(fate) && user !in Run(cfg, events).world.instances
    requires FirstFree(cfg.pool, 0, Run(cfg, events).world.leases.Keys) == Some(Dotted(a))
    ensures var chain := Run(cfg, events).world.chain;
            Verdict(net, RunAlone(cfg, Run(cfg, events).world, CheckExists(user), fate).0.chain,
                    Packet(a, Gateway(net), established)) ==
            Some(if IsolationRule(cfg.gateway, Dotted(a), ISOLATE) !in chain || AcceptsFirst(cfg, chain, Dotted(a))
                 then Accept else Drop)
  {
    var w, ip := Run(cfg, events).world, Dotted(a);
    GatewayIsNoGuest(net, cfg);
    RunKeepsInv(cfg, events);
    FirstFreeIsLowest(cfg.pool, 0, w.leases.Keys);
    CreateSucceeds(cfg, w, user, ip, fate);
    SetupKeepsOurs(cfg, w.chain, ip);
    var all := w.chain + RuleSpan(cfg.gateway, ip, 0, RULES);
    OnlyTwoMatch(net, cfg, all, a, established);
    VerdictOfAcceptAndDrop(net, cfg.gateway, ip, all, Packet(a, Gateway(net), established));
    SetupAcceptsFirstIff(cfg, w.chain, ip);
  }

  /** A cleanup of a whole span in which only the last deletion fails. */
  lemma {:induction false} OnlyDropRemains(gateway: string, ip: string, step: nat, ok: nat -> bool)
    requires step < RULES && forall k :: step <= k < RULES ==> (ok(k) <==> k != ISOLATE)
    ensures Cleaned(gateway, RuleSpan(gateway, ip, step, RULES), ip, step, ok) == [IsolationRule(gateway, ip, ISOLATE)]
    decreases RULES - step
  {
    var span := RuleSpan(gateway, ip, step, RULES);
    if step == ISOLATE {
      assert span == [IsolationRule(gateway, ip, ISOLATE)];
      assert Cleaned(gateway, span, ip, RULES, ok) == span;
    } else {
      SpanGrows(gateway, ip, step, RULES - 1);
      assert DeleteFirst(span, IsolationRule(gateway, ip, step)) == RuleSpan(gateway, ip, step + 1, RULES);
      OnlyDropRemains(gateway, ip, step + 1, ok);
    }
  }

  predicate AllButDrop(c: Call)
  {
    !(c.DeleteRule? && c.step == ISOLATE)
  }

  /** The chain and the leases after a stop that fails to delete the DROP. */
  lemma StopLeavesDrop(cfg: Config, w: World, user: string, ip: string)
    requires FirstFree(cfg.pool, 0, {}) == Some(ip) && w == WithRunningVm(cfg, START.world, user, ip)
    ensures var (w', d) := RunAlone(cfg, w, TakeInstance(user, false), AllButDrop);
            w'.chain == [IsolationRule(cfg.gateway, ip, ISOLATE)] && w'.leases.Keys == {} && user !in w'.instances
  {
    var i := Instance(ip, TapName(1));
    var fate: Fate := AllButDrop;
    assert RedisObeys(fate);
    StopRuns(cfg, w, user, fate);
    assert w.chain == RuleSpan(cfg.gateway, ip, 0, RULES);
    var ok := CleanupFate(user, ip, i.tap, AfterStop(false), fate);
    forall k: nat
      ensures ok(k) <==> k != ISOLATE
    {
      assert ok(k) == AllButDrop(DeleteRule(user, ip, i.tap, k, AfterStop(false)));
    }
    OnlyDropRemains(cfg.gateway, ip, 0, ok);
  }

  function CreateStopCreate(user: string): seq<Operation>
  {
    [Operation(CheckExists(user), ALL), Operation(TakeInstance(user, false), AllButDrop), Operation(CheckExists(user), ALL)]
  }

  lemma CreatedTwice(cfg: Config, user: string, ip: string) returns (i: Instance)
    requires FirstFree(cfg.pool, 0, {}) == Some(ip)
    ensures var w := RunAll(cfg, CreateStopCreate(user));
            && i.ip == ip && i in w.running
            && w.chain == [IsolationRule(cfg.gateway, ip, ISOLATE)] + RuleSpan(cfg.gateway, ip, 0, RULES)
  {
    var ops := CreateStopCreate(user);
    ThreeOperations(cfg, ops[0], ops[1], ops[2]);
    assert START.world.leases.Keys == {};
    CreateSucceeds(cfg, START.world, user, ip, ALL);
    var v := WithRunningVm(cfg, START.world, user, ip);
    StopLeavesDrop(cfg, v, user, ip);
    var w := RunAlone(cfg, v, TakeInstance(user, false), AllButDrop).0;
    CreateSucceeds(cfg, w, user, ip, ALL);
    i := Instance(ip, TapName(w.nextIdx));
  }

  /** Create, a stop whose last deletion fails, create again: the second VM runs but its packets to the
      gateway are dropped. */
  lemma LeftDropCutsOffGateway(net: Subnet, cfg: Config, user: string) returns (events: seq<Event>)
    requires Configured(net, cfg) && PoolSize(net) > 0
    ensures var s, a := Run(cfg, events), Base(net) + 2;
            Launched(s, a) && Verdict(net, s.world.chain, Packet(a, Gateway(net), false)) == Some(Drop)
  {
    PoolHost(net, 0);
    var ip := Dotted(Base(net) + 2);
    assert FirstFree(cfg.pool, 0, {}) == Some(ip);
    CreateStopCreateIsProper(user);
    events := OperationsAreARun(cfg, CreateStopCreate(user));
    var i := CreatedTwice(cfg, user, ip);
    DropAheadDrops(net, cfg, Run(cfg, events), Base(net) + 2, i);
  }

  lemma CreateStopCreateIsProper(user: string)
    ensures Proper(CreateStopCreate(user))
  {
    assert RedisObeys(ALL);
    var stop: Fate := AllButDrop;
    assert RedisObeys(stop);
  }

  lemma DropAheadDrops(net: Subnet, cfg: Config, s: System, a: nat, i: Instance)
    requires Configured(net, cfg) && cfg.pool != [] && i in s.world.running && i.ip == Dotted(a)
    requires s.world.chain != [] && s.world.chain[0] == IsolationRule(cfg.gateway, Dotted(a), ISOLATE)
    ensures Launched(s, a) && Verdict(net, s.world.chain, Packet(a, Gateway(net), false)) == Some(Drop)
  {
    GatewayIsInside(net, cfg, a, false);
  }

  lemma ThreeOperations(cfg: Config, a: Operation, b: Operation, c: Operation)
    ensures RunAll(cfg, [a, b, c]) ==
            RunAlone(cfg, RunAlone(cfg, RunAlone(cfg, START.world, a.entry, a.fate).0, b.entry, b.fate).0, c.entry, c.fate).0
  {
    assert [a, b, c][..2] == [a, b] && [a, b][..1] == [a] && [a][..0] == [];
    assert RunAll(cfg, []) == START.world;
    assert RunAll(cfg, [a]) == RunAlone(cfg, START.world, a.entry, a.fate).0;
    assert RunAll(cfg, [a, b]) == RunAlone(cfg, RunAll(cfg, [a]), b.entry, b.fate).0;
  }
}

/** The registry: checking for an instance and registering one are separate critical sections, so two
    creates of one user can race. When they do not, no instance is ever overwritten; when they do, one
    can be, and its address and device are never given back. */
module Registration {
  import opened Wrappers
  import opened AddressPool
  import opened Firewall
  import opened Protocol
  import opened Invariant
  import opened RuleAccounting

  /** Past the existence check and not yet registered. */
  predicate Creating(c: Call)
  {
    c.SaveInitial? || c.Allocate? || c.CopyRootfs? || c.MakeData? || c.TakeTapIndex?
    || c.TapCommand? || c.AddRule? || c.Launch? || c.Register?
  }

  /** No user has two creates in flight. */
  ghost predicate OneCreateEach(s: System)
  {
    forall i, j :: i in s.calls && j in s.calls && i != j && Creating(s.calls[i]) && Creating(s.calls[j]) ==>
                     s.calls[i].user != s.calls[j].user
  }

  ghost predicate CreatorsUnregistered(s: System)
  {
    forall i :: i in s.calls && Creating(s.calls[i]) ==> s.calls[i].user !in s.world.instances
  }

  lemma NextKeepsUser(cfg: Config, w: World, c: Call, ok: bool)
    ensures Next(cfg, w, c, ok).user == c.user
  {
  }

  lemma CreatingStarts(cfg: Config, w: World, c: Call, ok: bool)
    requires Creating(Next(cfg, w, c, ok))
    ensures Creating(c) || (c.CheckExists? && c.user !in w.instances)
  {
  }

  lemma InstancesGrowByRegister(cfg: Config, w: World, c: Call, ok: bool)
    ensures Effect(cfg, w, c, ok).instances.Keys <= w.instances.Keys + (if c.Register? then {c.user} else {})
  {
  }

  lemma AdvanceKeepsUnregistered(cfg: Config, s: System, id: nat, ok: bool)
    requires CreatorsUnregistered(s) && OneCreateEach(s) && id in s.calls
    ensures CreatorsUnregistered(Step(cfg, s, Advance(id, ok)))
  {
    var c, t := s.calls[id], Step(cfg, s, Advance(id, ok));
    NextKeepsUser(cfg, s.world, c, ok);
    InstancesGrowByRegister(cfg, s.world, c, ok);
    forall i | i in t.calls && Creating(t.calls[i])
      ensures t.calls[i].user !in t.world.instances
    {
      if i == id {
        CreatingStarts(cfg, s.world, c, ok);
      }
    }
  }

  /** An instance is overwritten exactly by a registration of a user that already has one. */
  lemma OverwritesExactlyWhen(cfg: Config, s: System, e: Event)
    requires Inv(cfg, s)
    ensures Step(cfg, s, e).past.overwritten != s.past.overwritten <==>
            e.Advance? && e.id in s.calls && s.calls[e.id].Register? && s.calls[e.id].user in s.world.instances
  {
    if e.Advance? && e.id in s.calls {
      if s.calls[e.id].Register? && s.calls[e.id].user in s.world.instances {
        NotYetOverwritten(cfg, s, s.calls[e.id].user);
      } else {
        OtherStepsOverwriteNothing(cfg, s.world, s.past, e.id, s.calls[e.id], e.ok);
      }
    }
  }

  lemma NotYetOverwritten(cfg: Config, s: System, user: string)
    requires AddressHeld(cfg, s) && user in s.world.instances
    ensures s.world.instances[user] !in s.past.overwritten
  {
    var i := s.world.instances[user];
    assert AddressIn(s)(OfInstance(user)) == Some(i.ip);
    assert i in s.past.overwritten ==> AddressIn(s)(OfOverwritten(i)) == Some(i.ip);
  }

  lemma OtherStepsOverwriteNothing(cfg: Config, w: World, h: History, id: nat, c: Call, ok: bool)
    requires !(c.Register? && c.user in w.instances)
    ensures Remember(cfg, w, h, id, c, ok).overwritten == h.overwritten
  {
  }

  /** If at no point of a run a user has two creates in flight, nothing is ever overwritten. */
  lemma {:induction false} ExclusiveCreatesNeverOverwrite(cfg: Config, events: seq<Event>)
    requires cfg.gateway !in cfg.pool
    requires forall n :: 0 <= n <= |events| ==> OneCreateEach(Run(cfg, events[..n]))
    ensures Run(cfg, events).past.overwritten == {} && CreatorsUnregistered(Run(cfg, events))
  {
    if events != [] {
      var prefix, e := events[..|events| - 1], events[|events| - 1];
      assert forall n :: 0 <= n <= |prefix| ==> prefix[..n] == events[..n];
      ExclusiveCreatesNeverOverwrite(cfg, prefix);
      RunKeepsInv(cfg, prefix);
      var s := Run(cfg, prefix);
      OverwritesExactlyWhen(cfg, s, e);
      assert prefix == events[..|prefix|];
      if e.Advance? && e.id in s.calls {
        AdvanceKeepsUnregistered(cfg, s, e.id, e.ok);
      }
    }
  }

  // ---------- an overwritten instance is lost ----------

  lemma OverwrittenGrows(cfg: Config, w: World, h: History, id: nat, c: Call, ok: bool)
    ensures h.overwritten <= Remember(cfg, w, h, id, c, ok).overwritten
  {
    if !(c.Register? && c.user in w.instances) {
      OtherStepsOverwriteNothing(cfg, w, h, id, c, ok);
    }
  }

  lemma {:induction false} OverwrittenStays(cfg: Config, events: seq<Event>, more: seq<Event>)
    ensures Run(cfg, events).past.overwritten <= Run(cfg, events + more).past.overwritten
  {
    if more == [] {
      assert events + more == events;
    } else {
      var rest, e := more[..|more| - 1], more[|more| - 1];
      OverwrittenStays(cfg, events, rest);
      RunAppend(cfg, events + rest, e);
      assert events + rest + [e] == events + more;
      var s := Run(cfg, events + rest);
      if e.Advance? && e.id in s.calls {
        OverwrittenGrows(cfg, s.world, s.past, e.id, s.calls[e.id], e.ok);
      }
    }
  }

  /** What an overwritten instance holds is never given back: in every continuation its address is
      leased, its device exists and its five rules are in the chain, whatever is stopped or destroyed. */
  lemma OverwrittenIsNeverGivenBack(cfg: Config, events: seq<Event>, more: seq<Event>, i: Instance)
    requires cfg.gateway !in cfg.pool && i in Run(cfg, events).past.overwritten
    ensures var w := Run(cfg, events + more).world;
            && i.ip in w.leases && i.tap in w.taps
            && (forall k: nat :: k < RULES ==> IsolationRule(cfg.gateway, i.ip, k) in w.chain)
  {
    OverwrittenStays(cfg, events, more);
    RunKeepsInv(cfg, events + more);
    OverwrittenHolds(cfg, Run(cfg, events + more), i);
  }

  lemma OverwrittenHolds(cfg: Config, s: System, i: Instance)
    requires Inv(cfg, s) && i in s.past.overwritten
    ensures i.ip in s.world.leases && i.tap in s.world.taps
    ensures forall k: nat :: k < RULES ==> IsolationRule(cfg.gateway, i.ip, k) in s.world.chain
  {
    var h := OfOverwritten(i);
    assert AddressIn(s)(h) == Some(i.ip) && TapIn(s)(h) == Some(i.tap);
    assert Live(s, i.tap);
    forall k: nat | k < RULES
      ensures IsolationRule(cfg.gateway, i.ip, k) in s.world.chain
    {
      assert HasRule(s, i.ip, k);
      HeldRuleInChain(cfg, s, i.ip, k);
    }
  }

  // ---------- the race is real ----------

  /** How many steps a create is from its registration. */
  function Distance(c: Call): nat
    requires Creating(c)
  {
    match c
    case SaveInitial(_) => 20
    case Allocate(_) => 19
    case CopyRootfs(_, _) => 18
    case MakeData(_, _) => 17
    case TakeTapIndex(_, _) => 16
    case TapCommand(_, _, _, step) => if step < TAP_COMMANDS then 12 + TAP_COMMANDS - step else 12
    case AddRule(_, _, _, step) => if step < RULES then 2 + RULES - step else 2
    case Launch(_, _, _) => 1
    case Register(_, _, _) => 0
  }

  lemma RunAppend(cfg: Config, events: seq<Event>, e: Event)
    ensures Run(cfg, events + [e]) == Step(cfg, Run(cfg, events), e)
  {
    assert (events + [e])[..|events|] == events;
  }

  ghost predicate SameButCall(s: System, t: System, id: nat)
  {
    && s.world.instances == t.world.instances && s.past.overwritten == t.past.overwritten
    && s.calls - {id} == t.calls - {id}
  }

  predicate Unleased(c: Call)
  {
    c.SaveInitial? || c.Allocate?
  }

  lemma CreateAdvances(cfg: Config, w: World, c: Call)
    requires Creating(c) && !c.Register?
    requires c.Allocate? ==> FirstFree(cfg.pool, 0, w.leases.Keys).Some?
    ensures var d := Next(cfg, w, c, true);
            Creating(d) && Distance(d) < Distance(c) && (Unleased(d) ==> c.SaveInitial?)
    ensures Effect(cfg, w, c, true).instances == w.instances
    ensures !c.Allocate? ==> Effect(cfg, w, c, true).leases == w.leases
    ensures |Effect(cfg, w, c, true).leases| <= |w.leases| + 1
  {
  }

  lemma CreateSteps(cfg: Config, s: System, id: nat)
    requires id in s.calls && Creating(s.calls[id]) && !s.calls[id].Register?
    requires Unleased(s.calls[id]) ==> FirstFree(cfg.pool, 0, s.world.leases.Keys).Some?
    ensures var c, t := s.calls[id], Step(cfg, s, Advance(id, true));
            && SameButCall(s, t, id) && id in t.calls && Creating(t.calls[id]) && t.calls[id].user == c.user
            && Distance(t.calls[id]) < Distance(c)
            && (Unleased(t.calls[id]) ==> t.world.leases == s.world.leases && Unleased(c))
            && |t.world.leases| + (if Unleased(t.calls[id]) then 1 else 0) <= |s.world.leases| + (if Unleased(c) then 1 else 0)
  {
    var c := s.calls[id];
    NextKeepsUser(cfg, s.world, c, true);
    CreateAdvances(cfg, s.world, c);
    OtherStepsOverwriteNothing(cfg, s.world, s.past, id, c, true);
  }

  /** A create whose commands all succeed gets to its registration, other calls standing still. */
  lemma {:induction false} CreateReachesRegister(cfg: Config, events: seq<Event>, id: nat) returns (more: seq<Event>)
    requires var s := Run(cfg, events);
             && id in s.calls && Creating(s.calls[id])
             && (Unleased(s.calls[id]) ==> FirstFree(cfg.pool, 0, s.world.leases.Keys).Some?)
    ensures var s, t := Run(cfg, events), Run(cfg, events + more);
            && SameButCall(s, t, id) && id in t.calls && t.calls[id].Register? && t.calls[id].user == s.calls[id].user
            && |t.world.leases| <= |s.world.leases| + (if Unleased(s.calls[id]) then 1 else 0)
    decreases Distance(Run(cfg, events).calls[id])
  {
    var s := Run(cfg, events);
    var c := s.calls[id];
    if c.Register? {
      more := [];
      assert events + more == events;
    } else {
      RunAppend(cfg, events, Advance(id, true));
      CreateSteps(cfg, s, id);
      var rest := CreateReachesRegister(cfg, events + [Advance(id, true)], id);
      more := [Advance(id, true)] + rest;
      assert events + [Advance(id, true)] + rest == events + more;
    }
  }

  /** The addresses of the pool; as many as its length when, as in every subnet, they are distinct. */
  function Texts(pool: seq<string>): set<string>
  {
    set ip | ip in pool
  }

  lemma RoomIsFree(cfg: Config, used: set<string>)
    requires |used| < |Texts(cfg.pool)|
    ensures FirstFree(cfg.pool, 0, used).Some?
  {
    FirstFreeIsLowest(cfg.pool, 0, used);
    if FirstFree(cfg.pool, 0, used).None? {
      SubsetCardinality(Texts(cfg.pool), used);
    }
  }

  lemma {:induction false} DistinctTexts(pool: seq<string>)
    requires Distinct(pool)
    ensures |Texts(pool)| == |pool|
  {
    if pool != [] {
      var n := |pool| - 1;
      DistinctTexts(pool[..n]);
      assert Texts(pool) == Texts(pool[..n]) + {pool[n]};
    }
  }

  lemma OtherCallStands(s: System, t: System, id: nat, other: nat)
    requires SameButCall(s, t, id) && other in s.calls && other != id
    ensures other in t.calls && t.calls[other] == s.calls[other]
  {
    assert other in s.calls - {id};
    assert (s.calls - {id})[other] == s.calls[other];
    assert other in t.calls - {id};
  }

  /** A create in progress, and its address leased or still to be. */
  ghost predicate InFlight(s: System, id: nat, user: string)
  {
    id in s.calls && Creating(s.calls[id]) && s.calls[id].user == user
  }

  function Wants(c: Call): nat
  {
    if Unleased(c) then 1 else 0
  }

  /** A create in flight driven through its registration, other calls standing still. */
  lemma CreateRegisters(cfg: Config, events: seq<Event>, id: nat, user: string) returns (more: seq<Event>)
    requires InFlight(Run(cfg, events), id, user)
    requires var s := Run(cfg, events); |s.world.leases| + Wants(s.calls[id]) <= |Texts(cfg.pool)|
    ensures var s, t := Run(cfg, events), Run(cfg, events + more);
            && user in t.world.instances && |t.world.leases| <= |s.world.leases| + Wants(s.calls[id])
            && (forall other :: other in s.calls && other != id ==> other in t.calls && t.calls[other] == s.calls[other])
            && s.past.overwritten <= t.past.overwritten
            && (user in s.world.instances ==> s.world.instances[user] in t.past.overwritten)
  {
    var s := Run(cfg, events);
    assert |s.world.leases.Keys| == |s.world.leases|;
    if Unleased(s.calls[id]) {
      RoomIsFree(cfg, s.world.leases.Keys);
    }
    var before := CreateReachesRegister(cfg, events, id);
    var r := Run(cfg, events + before);
    forall other | other in s.calls && other != id
      ensures other in r.calls && r.calls[other] == s.calls[other]
    {
      OtherCallStands(s, r, id, other);
    }
    RunAppend(cfg, events + before, Advance(id, true));
    more := before + [Advance(id, true)];
    assert events + more == events + before + [Advance(id, true)];
  }

  /** Two creates of one user in flight, one driven through its registration and then the other. */
  lemma BothRegister(cfg: Config, events: seq<Event>, i: nat, j: nat, user: string)
    returns (first: seq<Event>, second: seq<Event>)
    requires i != j && InFlight(Run(cfg, events), i, user) && InFlight(Run(cfg, events), j, user)
    requires var s := Run(cfg, events);
             |s.world.leases| + Wants(s.calls[i]) + Wants(s.calls[j]) <= |Texts(cfg.pool)|
    ensures var s, r, t := Run(cfg, events), Run(cfg, events + first), Run(cfg, events + first + second);
            && s.past.overwritten <= r.past.overwritten <= t.past.overwritten
            && user in r.world.instances && r.world.instances[user] in t.past.overwritten
  {
    first := CreateRegisters(cfg, events, i, user);
    second := CreateRegisters(cfg, events + first, j, user);
  }

  /** Whenever two creates of one user are in flight, in whatever reachable state, and the pool has room
      for those of them that still want an address, some continuation overwrites an instance. */
  lemma OverlappingCreatesOverwrite(cfg: Config, events: seq<Event>, i: nat, j: nat, user: string)
    returns (more: seq<Event>)
    requires cfg.gateway !in cfg.pool && i != j
    requires InFlight(Run(cfg, events), i, user) && InFlight(Run(cfg, events), j, user)
    requires var s := Run(cfg, events);
             |s.world.leases| + Wants(s.calls[i]) + Wants(s.calls[j]) <= |Texts(cfg.pool)|
    ensures Run(cfg, events).past.overwritten < Run(cfg, events + more).past.overwritten
  {
    var first, second := BothRegister(cfg, events, i, j, user);
    more := first + second;
    assert events + more == events + first + second;
    RunKeepsInv(cfg, events + first);
    NotYetOverwritten(cfg, Run(cfg, events + first), user);
  }

  /** With two addresses to give, the first two overlapping creates of one user can overwrite. */
  lemma RacingCreatesOverwrite(cfg: Config, user: string) returns (events: seq<Event>)
    requires |Texts(cfg.pool)| >= 2
    ensures Run(cfg, events).past.overwritten != {}
  {
    var both := BothPastTheCheck(cfg, user);
    var first, second := BothRegister(cfg, both, 0, 1, user);
    events := both + first + second;
  }

  /** A call that begins with nothing else in the way and sees no instance. */
  lemma PastTheCheck(cfg: Config, events: seq<Event>, id: nat, user: string) returns (all: seq<Event>)
    requires var s := Run(cfg, events); id !in s.calls && user !in s.world.instances
    ensures var s := Run(cfg, events); Run(cfg, all) == s.(calls := s.calls[id := SaveInitial(user)])
  {
    var begin, check := Begin(id, CheckExists(user)), Advance(id, true);
    RunAppend(cfg, events, begin);
    RunAppend(cfg, events + [begin], check);
    all := events + [begin] + [check];
    CheckSteps(cfg, Run(cfg, events), id, user);
  }

  lemma CheckSteps(cfg: Config, s: System, id: nat, user: string)
    requires id !in s.calls && user !in s.world.instances
    ensures Step(cfg, Step(cfg, s, Begin(id, CheckExists(user))), Advance(id, true)) ==
            s.(calls := s.calls[id := SaveInitial(user)])
  {
    assert s.calls[id := CheckExists(user)][id := SaveInitial(user)] == s.calls[id := SaveInitial(user)];
  }

  /** Two calls that both saw no instance. */
  lemma BothPastTheCheck(cfg: Config, user: string) returns (events: seq<Event>)
    ensures Run(cfg, events) == START.(calls := map[0 := SaveInitial(user), 1 := SaveInitial(user)])
  {
    var one := PastTheCheck(cfg, [], 0, user);
    events := PastTheCheck(cfg, one, 1, user);
  }
}

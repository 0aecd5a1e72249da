/** Sequences of completed, non-overlapping operations: each is a run of the protocol, records and
    registry agree after each, and in any quiescent state the resources are those of the instances. */
module Sequential {
  import opened Wrappers
  import opened AddressPool
  import opened Firewall
  import opened Protocol
  import opened Invariant
  import opened RuleAccounting
  import opened Registration
  import opened Lifecycle
  import opened StopOutcomes

  // ---------- records and registry ----------

  /** The user is registered exactly when the record says running, and then they agree; no record
      stays at provisioning. */
  ghost predicate Agrees(w: World, user: string)
  {
    && (user in w.instances <==> user in w.records && w.records[user].status == Running)
    && (user in w.instances ==>
          w.records[user].ip == w.instances[user].ip && w.records[user].tap == w.instances[user].tap)
    && (user in w.records ==> w.records[user].status != Provisioning)
  }

  /** What holds of the acting user's record and registration in mid-operation. */
  ghost predicate Midway(w: World, c: Call)
  {
    var user := c.user;
    match c
    case CheckExists(_) => Agrees(w, user)
    case TakeInstance(_, _) => Agrees(w, user)
    case CheckRunning(_) => Agrees(w, user)
    case Finished(_, _) => Agrees(w, user)
    case SaveInitial(_) => Agrees(w, user) && user !in w.instances
    case CleanStorage(_) => Agrees(w, user) && user !in w.instances
    case DeleteRecord(_) => Agrees(w, user) && user !in w.instances
    case SaveRunning(_, ip, tap) => user in w.instances && w.instances[user] == Instance(ip, tap)
    case DeleteRule(_, _, _, _, exit) => user !in w.instances && WillErr(exit)
    case DeleteTap(_, _, _, exit) => user !in w.instances && WillErr(exit)
    case ReleaseAddress(_, _, exit) => user !in w.instances && WillErr(exit)
    case SaveError(_, info) => user !in w.instances && info.status == Errored
    case SaveStopped(_, info, _) => user !in w.instances && info.status == Stopped
    case _ => user !in w.instances
  }

  ghost predicate WillErr(exit: Exit)
  {
    exit.CreateFailed? ==> exit.info.status == Errored
  }

  predicate TouchesRedis(c: Call)
  {
    c.SaveInitial? || c.SaveRunning? || c.SaveError? || c.LoadRecord? || c.SaveStopped? || c.DeleteRecord?
  }

  ghost predicate RedisObeys(fate: Fate)
  {
    forall c: Call :: TouchesRedis(c) ==> fate(c)
  }

  lemma MidwayStep(cfg: Config, w: World, c: Call, ok: bool)
    requires Midway(w, c) && !c.Finished? && (TouchesRedis(c) ==> ok)
    ensures Midway(Effect(cfg, w, c, ok), Next(cfg, w, c, ok))
  {
    NextKeepsUser(cfg, w, c, ok);
    if TouchesRedis(c) {
      RedisMidwayStep(cfg, w, c);
    } else if c.TakeInstance? || c.Register? || c.CheckExists? || c.CheckRunning? {
      RegistryMidwayStep(cfg, w, c, ok);
    } else {
      OtherMidwayStep(cfg, w, c, ok);
      OthersLeaveRecords(cfg, w, c, ok);
      SameMidway(w, Effect(cfg, w, c, ok), Next(cfg, w, c, ok));
    }
  }

  lemma RedisMidwayStep(cfg: Config, w: World, c: Call)
    requires Midway(w, c) && TouchesRedis(c)
    ensures Midway(Effect(cfg, w, c, true), Next(cfg, w, c, true))
  {
  }

  lemma RegistryMidwayStep(cfg: Config, w: World, c: Call, ok: bool)
    requires Midway(w, c) && (c.TakeInstance? || c.Register? || c.CheckExists? || c.CheckRunning?)
    ensures Midway(Effect(cfg, w, c, ok), Next(cfg, w, c, ok))
  {
  }

  lemma OtherMidwayStep(cfg: Config, w: World, c: Call, ok: bool)
    requires Midway(w, c) && !c.Finished? && !TouchesRedis(c)
    requires !c.TakeInstance? && !c.Register? && !c.CheckExists? && !c.CheckRunning?
    ensures Midway(w, Next(cfg, w, c, ok))
  {
  }

  lemma OthersLeaveRecords(cfg: Config, w: World, c: Call, ok: bool)
    requires !TouchesRedis(c) && !c.TakeInstance? && !c.Register?
    ensures Effect(cfg, w, c, ok).records == w.records && Effect(cfg, w, c, ok).instances == w.instances
  {
  }

  lemma SameMidway(w: World, v: World, c: Call)
    requires Midway(w, c) && v.records == w.records && v.instances == w.instances
    ensures Midway(v, c)
  {
  }

  lemma OthersUntouched(cfg: Config, w: World, c: Call, ok: bool, user: string)
    requires Agrees(w, user) && user != c.user
    ensures Agrees(Effect(cfg, w, c, ok), user)
  {
    RecordsElsewhere(cfg, w, c, ok, user);
    InstancesElsewhere(cfg, w, c, ok, user);
  }

  lemma RecordsElsewhere(cfg: Config, w: World, c: Call, ok: bool, user: string)
    requires user != c.user
    ensures var r := Effect(cfg, w, c, ok).records;
            (user in r <==> user in w.records) && (user in r ==> r[user] == w.records[user])
  {
  }

  lemma InstancesElsewhere(cfg: Config, w: World, c: Call, ok: bool, user: string)
    requires user != c.user
    ensures var m := Effect(cfg, w, c, ok).instances;
            (user in m <==> user in w.instances) && (user in m ==> m[user] == w.instances[user])
  {
  }

  ghost predicate AllAgreeBut(w: World, c: Call)
  {
    Midway(w, c) && forall user :: user != c.user ==> Agrees(w, user)
  }

  // ---------- a lone call is a run ----------

  ghost predicate AllFinished(s: System)
  {
    forall id :: id in s.calls ==> s.calls[id].Finished?
  }

  lemma LoneStepHistory(cfg: Config, w: World, h: History, id: nat, c: Call, fate: Fate)
    requires Midway(w, c)
    ensures Remember(cfg, w, h, id, c, fate(c)).overwritten == h.overwritten
    ensures TapDeletionsObey(fate) ==> Remember(cfg, w, h, id, c, fate(c)).orphans == h.orphans
  {
  }

  /** Driving one call of a run to its end, all others being finished, is the lone run of that call. */
  lemma {:induction false} LoneCallIsARun(cfg: Config, events: seq<Event>, id: nat, fate: Fate) returns (all: seq<Event>)
    requires var s := Run(cfg, events);
             id in s.calls && AllAgreeBut(s.world, s.calls[id]) && s.past.overwritten == {}
             && forall j :: j in s.calls && j != id ==> s.calls[j].Finished?
    requires RedisObeys(fate)
    ensures var s, t := Run(cfg, events), Run(cfg, all);
            && t.world == RunAlone(cfg, s.world, s.calls[id], fate).0
            && t.calls.Keys == s.calls.Keys && AllFinished(t)
            && t.past.overwritten == {} && (TapDeletionsObey(fate) ==> t.past.orphans == s.past.orphans)
            && (forall user :: Agrees(t.world, user))
    decreases Rank(Run(cfg, events).calls[id])
  {
    var s := Run(cfg, events);
    var c := s.calls[id];
    if c.Finished? {
      all := events;
    } else {
      var e := Advance(id, fate(c));
      RunAppend(cfg, events, e);
      RankDrops(cfg, s.world, c, fate(c));
      NextKeepsUser(cfg, s.world, c, fate(c));
      MidwayStep(cfg, s.world, c, fate(c));
      LoneStepHistory(cfg, s.world, s.past, id, c, fate);
      forall user | user != c.user
        ensures Agrees(Effect(cfg, s.world, c, fate(c)), user)
      {
        OthersUntouched(cfg, s.world, c, fate(c), user);
      }
      all := LoneCallIsARun(cfg, events + [e], id, fate);
    }
  }

  // ---------- sequences of operations ----------

  datatype Operation = Operation(entry: Call, fate: Fate)

  function RunAll(cfg: Config, ops: seq<Operation>): World
  {
    if ops == [] then START.world
    else RunAlone(cfg, RunAll(cfg, ops[..|ops| - 1]), ops[|ops| - 1].entry, ops[|ops| - 1].fate).0
  }

  ghost predicate Proper(ops: seq<Operation>)
  {
    forall i :: 0 <= i < |ops| ==> IsEntry(ops[i].entry) && RedisObeys(ops[i].fate)
  }

  /** No deletion of a device fails in any of the operations. */
  ghost predicate Tidy(ops: seq<Operation>)
  {
    forall i :: 0 <= i < |ops| ==> TapDeletionsObey(ops[i].fate)
  }

  lemma {:induction false} OperationsAreARun(cfg: Config, ops: seq<Operation>) returns (events: seq<Event>)
    requires Proper(ops)
    ensures var s := Run(cfg, events);
            && s.world == RunAll(cfg, ops) && AllFinished(s)
            && s.past.overwritten == {} && (Tidy(ops) ==> s.past.orphans == {})
            && (forall user :: Agrees(s.world, user)) && (forall id :: id in s.calls ==> id < |ops|)
  {
    if ops == [] {
      events := [];
    } else {
      var n, op := |ops| - 1, ops[|ops| - 1];
      var before := OperationsAreARun(cfg, ops[..n]);
      var e := Begin(n, op.entry);
      RunAppend(cfg, before, e);
      assert Midway(Run(cfg, before).world, op.entry);
      events := LoneCallIsARun(cfg, before + [e], n, op.fate);
    }
  }

  // ---------- quiescent states of any run ----------

  /** The lease of every address names its holder's user. */
  ghost predicate Labelled(s: System)
  {
    forall ip :: ip in s.past.holder && ip in s.world.leases ==>
                   match s.past.holder[ip]
                   case OfCall(id) => id in s.calls ==> s.world.leases[ip] == s.calls[id].user
                   case OfInstance(user) => s.world.leases[ip] == user
                   case OfOverwritten(_) => true
  }

  lemma RegisterKeepsLabels(cfg: Config, s: System, id: nat, ok: bool)
    requires AddressHeld(cfg, s) && Labelled(s) && id in s.calls && s.calls[id].Register?
    ensures Labelled(Step(cfg, s, Advance(id, ok)))
  {
    var c, t := s.calls[id], Step(cfg, s, Advance(id, ok));
    assert AddressIn(s)(OfCall(id)) == Some(c.ip);
    assert t.world.leases == s.world.leases;
    assert t.past.holder[c.ip] == OfInstance(c.user);
  }

  lemma TakeInstanceKeepsLabels(cfg: Config, s: System, id: nat, ok: bool)
    requires AddressHeld(cfg, s) && Labelled(s) && id in s.calls && s.calls[id].TakeInstance?
    ensures Labelled(Step(cfg, s, Advance(id, ok)))
  {
    var c, t := s.calls[id], Step(cfg, s, Advance(id, ok));
    assert t.world.leases == s.world.leases;
    NextKeepsUser(cfg, s.world, c, ok);
    if c.user in s.world.instances {
      assert AddressIn(s)(OfInstance(c.user)) == Some(s.world.instances[c.user].ip);
    }
  }

  lemma LeaseStepKeepsLabels(cfg: Config, s: System, id: nat, ok: bool)
    requires AddressHeld(cfg, s) && Labelled(s) && id in s.calls
    requires s.calls[id].Allocate? || s.calls[id].ReleaseAddress?
    ensures Labelled(Step(cfg, s, Advance(id, ok)))
  {
    NextKeepsUser(cfg, s.world, s.calls[id], ok);
    FirstFreeIsLowest(cfg.pool, 0, s.world.leases.Keys);
  }

  lemma OtherStepsKeepLabels(cfg: Config, s: System, id: nat, ok: bool)
    requires AddressHeld(cfg, s) && Labelled(s) && id in s.calls && !MovesAddress(s.world, s.calls[id])
    ensures Labelled(Step(cfg, s, Advance(id, ok)))
  {
    NextKeepsUser(cfg, s.world, s.calls[id], ok);
    OtherStepsKeepLeases(cfg, s.world, s.past, id, s.calls[id], ok);
    SameLabels(s, Step(cfg, s, Advance(id, ok)), id);
  }

  lemma SameLabels(s: System, t: System, id: nat)
    requires Labelled(s) && t.past.holder == s.past.holder && t.world.leases == s.world.leases
    requires id in s.calls && id in t.calls && t.calls == s.calls[id := t.calls[id]] && t.calls[id].user == s.calls[id].user
    ensures Labelled(t)
  {
  }

  lemma AdvanceKeepsLabels(cfg: Config, s: System, id: nat, ok: bool)
    requires AddressHeld(cfg, s) && Labelled(s) && id in s.calls
    ensures Labelled(Step(cfg, s, Advance(id, ok)))
  {
    if s.calls[id].Register? {
      RegisterKeepsLabels(cfg, s, id, ok);
    } else if s.calls[id].TakeInstance? {
      TakeInstanceKeepsLabels(cfg, s, id, ok);
    } else if MovesAddress(s.world, s.calls[id]) {
      LeaseStepKeepsLabels(cfg, s, id, ok);
    } else {
      OtherStepsKeepLabels(cfg, s, id, ok);
    }
  }

  lemma {:induction false} RunKeepsLabels(cfg: Config, events: seq<Event>)
    requires cfg.gateway !in cfg.pool
    ensures Labelled(Run(cfg, events))
  {
    if events != [] {
      var prefix, e := events[..|events| - 1], events[|events| - 1];
      RunKeepsLabels(cfg, prefix);
      RunKeepsInv(cfg, prefix);
      if e.Advance? && e.id in Run(cfg, prefix).calls {
        AdvanceKeepsLabels(cfg, Run(cfg, prefix), e.id, e.ok);
      }
    }
  }

  /** Every lease, device and process belongs to an instance, and every instance has its own. */
  ghost predicate Settled(w: World, orphans: set<string>)
  {
    && (forall ip :: ip in w.leases ==> w.leases[ip] in w.instances && w.instances[w.leases[ip]].ip == ip)
    && (forall user :: user in w.instances ==>
                         w.instances[user].ip in w.leases && w.leases[w.instances[user].ip] == user)
    && (forall tap :: tap in w.taps && tap !in orphans ==> exists user :: UsesTap(w, user, tap))
    && (forall user :: user in w.instances ==> w.instances[user].tap in w.taps)
    && (forall u, v, tap :: UsesTap(w, u, tap) && UsesTap(w, v, tap) ==> u == v)
    && (forall i :: i in w.running ==> exists user :: user in w.instances && w.instances[user] == i)
  }

  ghost predicate UsesTap(w: World, user: string, tap: string)
  {
    user in w.instances && w.instances[user].tap == tap
  }

  lemma QuiescentLease(cfg: Config, s: System, ip: string)
    requires Inv(cfg, s) && Labelled(s) && AllFinished(s) && s.past.overwritten == {} && ip in s.world.leases
    ensures var user := s.world.leases[ip];
            && s.past.holder[ip] == OfInstance(user)
            && user in s.world.instances && s.world.instances[user].ip == ip
  {
    var h := s.past.holder[ip];
    assert AddressIn(s)(h) == Some(ip);
    FinishedHoldsNothing(s, h);
  }

  lemma FinishedHoldsNothing(s: System, h: Holder)
    requires AllFinished(s) && s.past.overwritten == {} && HoldingOf(s, h).Holds?
    ensures h.OfInstance?
  {
  }

  lemma QuiescentInstance(cfg: Config, s: System, user: string)
    requires Inv(cfg, s) && Labelled(s) && user in s.world.instances
    ensures var ip := s.world.instances[user].ip; ip in s.world.leases && s.world.leases[ip] == user
  {
    assert AddressIn(s)(OfInstance(user)) == Some(s.world.instances[user].ip);
  }

  lemma QuiescentProcess(cfg: Config, s: System, i: Instance)
    requires Inv(cfg, s) && Labelled(s) && AllFinished(s) && s.past.overwritten == {} && i in s.world.running
    ensures exists user :: user in s.world.instances && s.world.instances[user] == i
  {
    assert Secures(s, s.past.holder[i.ip], i);
    QuiescentLease(cfg, s, i.ip);
    var user := s.world.leases[i.ip];
    assert HoldingOf(s, OfInstance(user)) == Full(s.world.instances[user]);
  }

  lemma QuiescentTaps(cfg: Config, s: System)
    requires Inv(cfg, s) && AllFinished(s) && s.past.overwritten == {}
    ensures var w := s.world;
            && (forall tap :: tap in w.taps && tap !in s.past.orphans ==> exists user :: UsesTap(w, user, tap))
            && (forall user :: user in w.instances ==> w.instances[user].tap in w.taps)
            && (forall u, v, tap :: UsesTap(w, u, tap) && UsesTap(w, v, tap) ==> u == v)
  {
    var w := s.world;
    forall tap | tap in w.taps && tap !in s.past.orphans
      ensures exists user :: UsesTap(w, user, tap)
    {
      assert Live(s, tap);
      assert TapIn(s)(s.past.tapHolder[tap]) == Some(tap);
      assert UsesTap(w, s.past.tapHolder[tap].user, tap);
    }
    forall user, tap | UsesTap(w, user, tap)
      ensures tap in w.taps && tap in s.past.tapHolder && s.past.tapHolder[tap] == OfInstance(user)
    {
      assert TapIn(s)(OfInstance(user)) == Some(tap);
      assert Live(s, tap);
    }
    assert forall user :: user in w.instances ==> UsesTap(w, user, w.instances[user].tap);
  }

  /** Only our rules are in the chain: one copy of each of the five for every registered address, and
      the left-overs on record. */
  ghost predicate RulesSettled(cfg: Config, w: World, left: multiset<Rule>)
  {
    && (forall r :: r in w.chain ==> IsOurs(cfg, r))
    && (forall ip, k: nat :: ip in cfg.pool && k < RULES ==>
                               var r := IsolationRule(cfg.gateway, ip, k);
                               multiset(w.chain)[r] == left[r] + (if Registered(w, ip) then 1 else 0))
  }

  ghost predicate Registered(w: World, ip: string)
  {
    exists user :: user in w.instances && w.instances[user].ip == ip
  }

  lemma QuiescentRules(cfg: Config, s: System)
    requires Inv(cfg, s) && Labelled(s) && AllFinished(s) && s.past.overwritten == {}
    ensures RulesSettled(cfg, s.world, s.past.left)
  {
    forall ip, k: nat | ip in cfg.pool && k < RULES
      ensures HasRule(s, ip, k) <==> Registered(s.world, ip)
    {
      if ip in s.world.leases {
        QuiescentLease(cfg, s, ip);
      } else {
        forall user | user in s.world.instances
          ensures s.world.instances[user].ip != ip
        {
          QuiescentInstance(cfg, s, user);
        }
      }
    }
  }

  /** In any interleaved run, whenever no call is in progress and no instance was overwritten, leases,
      devices, processes and rules are those of the registered instances, one each, but for devices and
      rules on record as left behind. */
  lemma QuiescentIsSettled(cfg: Config, events: seq<Event>)
    requires cfg.gateway !in cfg.pool
    requires AllFinished(Run(cfg, events)) && Run(cfg, events).past.overwritten == {}
    ensures Settled(Run(cfg, events).world, Run(cfg, events).past.orphans)
    ensures RulesSettled(cfg, Run(cfg, events).world, Run(cfg, events).past.left)
  {
    RunKeepsInv(cfg, events);
    RunKeepsLabels(cfg, events);
    var s := Run(cfg, events);
    forall ip | ip in s.world.leases
      ensures s.world.leases[ip] in s.world.instances && s.world.instances[s.world.leases[ip]].ip == ip
    {
      QuiescentLease(cfg, s, ip);
    }
    forall user | user in s.world.instances
      ensures s.world.instances[user].ip in s.world.leases && s.world.leases[s.world.instances[user].ip] == user
    {
      QuiescentInstance(cfg, s, user);
    }
    forall i | i in s.world.running
      ensures exists user :: user in s.world.instances && s.world.instances[user] == i
    {
      QuiescentProcess(cfg, s, i);
    }
    QuiescentTaps(cfg, s);
    QuiescentRules(cfg, s);
  }

  /** After every sequence of completed, non-overlapping operations whose Redis commands succeed,
      whatever else failed: records and registry agree for every user, no record stays at
      provisioning, and resources are exactly those of the instances, except for devices whose deletion
      failed in the run that the operations are. */
  lemma OperationsSettle(cfg: Config, ops: seq<Operation>) returns (events: seq<Event>)
    requires cfg.gateway !in cfg.pool && Proper(ops)
    ensures var s := Run(cfg, events);
            && s.world == RunAll(cfg, ops) && Settled(s.world, s.past.orphans)
            && (forall tap :: tap in s.past.orphans <==> exists n :: FailedTapDeletion(cfg, events, n, tap))
            && (Tidy(ops) ==> s.past.orphans == {})
    ensures forall user :: Agrees(RunAll(cfg, ops), user)
  {
    events := OperationsAreARun(cfg, ops);
    QuiescentIsSettled(cfg, events);
    forall tap
      ensures tap in Run(cfg, events).past.orphans <==> exists n :: FailedTapDeletion(cfg, events, n, tap)
    {
      OrphansAreFailedDeletions(cfg, events, tap);
    }
  }

  // ---------- destroy ----------

  ghost predicate Destroying(w: World, c: Call)
  {
    || c.CheckRunning? || ((c.TakeInstance? || c.KillVm? || c.LoadRecord? || c.SaveStopped?) && c.destroying)
    || ((c.DeleteRule? || c.DeleteTap? || c.ReleaseAddress?) && c.exit == AfterStop(true))
    || c.CleanStorage?
    || (c.DeleteRecord? && c.user !in w.storage)
    || (c.Finished? && (c.outcome == StorageLeft || (c.outcome == Destroyed && c.user !in w.storage && c.user !in w.records)))
  }

  lemma DestroyingStep(cfg: Config, w: World, c: Call, ok: bool)
    requires Destroying(w, c) && !c.Finished? && (TouchesRedis(c) ==> ok)
    ensures Destroying(Effect(cfg, w, c, ok), Next(cfg, w, c, ok))
  {
  }

  lemma {:induction false} DestroyRuns(cfg: Config, w: World, c: Call, fate: Fate)
    requires Destroying(w, c) && RedisObeys(fate)
    ensures var (w', d) := RunAlone(cfg, w, c, fate); Destroying(w', d) && d.Finished? && d.user == c.user
    decreases Rank(c)
  {
    if !c.Finished? {
      RankDrops(cfg, w, c, fate(c));
      DestroyingStep(cfg, w, c, fate(c));
      NextKeepsUser(cfg, w, c, fate(c));
      DestroyRuns(cfg, Effect(cfg, w, c, fate(c)), Next(cfg, w, c, fate(c)), fate);
    }
  }

  /** The devices a destroy of c.user from w0 leaves. */
  function TapsAfterDestroy(w0: World, user: string, fate: Fate): set<string>
  {
    if user in w0.instances
       && fate(DeleteTap(user, w0.instances[user].ip, w0.instances[user].tap, AfterStop(true)))
    then w0.taps - {w0.instances[user].tap}
    else w0.taps
  }

  /** Call c of a destroy that began in w0: until its device is due the devices are those of w0, and after
      that those of TapsAfterDestroy. */
  ghost predicate DestroyTaps(w0: World, w: World, c: Call, fate: Fate)
  {
    match c
    case CheckRunning(user) => w.taps == w0.taps && w.instances == w0.instances
    case TakeInstance(user, destroying) => destroying && w.taps == w0.taps && w.instances == w0.instances
    case KillVm(user, ip, tap, destroying) => destroying && w.taps == w0.taps && Had(w0, user, ip, tap)
    case DeleteRule(user, ip, tap, _, exit) => exit == AfterStop(true) && w.taps == w0.taps && Had(w0, user, ip, tap)
    case DeleteTap(user, ip, tap, exit) => exit == AfterStop(true) && w.taps == w0.taps && Had(w0, user, ip, tap)
    case ReleaseAddress(user, _, exit) => exit == AfterStop(true) && w.taps == TapsAfterDestroy(w0, user, fate)
    case LoadRecord(user, destroying) => destroying && w.taps == TapsAfterDestroy(w0, user, fate)
    case SaveStopped(user, _, destroying) => destroying && w.taps == TapsAfterDestroy(w0, user, fate)
    case CleanStorage(user) => w.taps == TapsAfterDestroy(w0, user, fate)
    case DeleteRecord(user) => w.taps == TapsAfterDestroy(w0, user, fate)
    case Finished(user, _) => w.taps == TapsAfterDestroy(w0, user, fate)
    case _ => false
  }

  predicate Had(w0: World, user: string, ip: string, tap: string)
  {
    user in w0.instances && w0.instances[user] == Instance(ip, tap)
  }

  lemma DestroyTapsStep(cfg: Config, w0: World, w: World, c: Call, fate: Fate)
    requires DestroyTaps(w0, w, c, fate) && !c.Finished?
    ensures DestroyTaps(w0, Effect(cfg, w, c, fate(c)), Next(cfg, w, c, fate(c)), fate)
  {
  }

  /** A destroy deletes the user's device if the user has one and that one command succeeds, and touches
      no other device, whatever else fails. */
  lemma {:induction false} DestroyDeletesDevice(cfg: Config, w0: World, w: World, c: Call, fate: Fate)
    requires DestroyTaps(w0, w, c, fate)
    ensures RunAlone(cfg, w, c, fate).0.taps == TapsAfterDestroy(w0, c.user, fate)
    decreases Rank(c)
  {
    if !c.Finished? {
      RankDrops(cfg, w, c, fate(c));
      DestroyTapsStep(cfg, w0, w, c, fate);
      NextKeepsUser(cfg, w, c, fate(c));
      DestroyDeletesDevice(cfg, w0, Effect(cfg, w, c, fate(c)), Next(cfg, w, c, fate(c)), fate);
    }
  }

  /** A destroy whose storage can be removed succeeds and leaves nothing of the user: no instance, record
      or storage, no device of the instance if deleting it succeeds, and every remaining lease, device and process
      belongs to another user's instance, except for devices whose deletion failed some time. */
  lemma DestroyLeavesNothing(cfg: Config, ops: seq<Operation>, user: string, fate: Fate) returns (events: seq<Event>)
    requires cfg.gateway !in cfg.pool && Proper(ops) && RedisObeys(fate)
    requires fate(CleanStorage(user))
    ensures RunAlone(cfg, RunAll(cfg, ops), CheckRunning(user), fate).1 == Finished(user, Destroyed)
    ensures var w := RunAlone(cfg, RunAll(cfg, ops), CheckRunning(user), fate).0;
            && user !in w.instances && user !in w.records && user !in w.storage
            && (forall ip :: ip in w.leases ==> w.leases[ip] != user && w.leases[ip] in w.instances)
            && w.taps == TapsAfterDestroy(RunAll(cfg, ops), user, fate)
            && Run(cfg, events).world == w
            && (forall tap :: tap in w.taps ==>
                  (exists v :: v != user && UsesTap(w, v, tap)) || (exists n :: FailedTapDeletion(cfg, events, n, tap)))
            && (Tidy(ops) && TapDeletionsObey(fate) ==>
                  forall tap :: tap in w.taps ==> exists v :: v != user && UsesTap(w, v, tap))
            && (forall i :: i in w.running ==> exists v :: v != user && v in w.instances && w.instances[v] == i)
  {
    var op := Operation(CheckRunning(user), fate);
    var all := ops + [op];
    assert all[..|all| - 1] == ops;
    DestroyEnds(cfg, RunAll(cfg, ops), user, fate);
    DestroyRuns(cfg, RunAll(cfg, ops), op.entry, fate);
    DestroyDeletesDevice(cfg, RunAll(cfg, ops), RunAll(cfg, ops), op.entry, fate);
    events := OperationsSettle(cfg, all);
    assert Agrees(RunAll(cfg, all), user);
    OthersOnly(RunAll(cfg, all), Run(cfg, events).past.orphans, user);
  }

  /** In a settled world everything is of others than a user without an instance. */
  lemma OthersOnly(w: World, orphans: set<string>, user: string)
    requires Settled(w, orphans) && user !in w.instances
    ensures forall ip :: ip in w.leases ==> w.leases[ip] != user && w.leases[ip] in w.instances
    ensures forall tap :: tap in w.taps && tap !in orphans ==> exists v :: v != user && UsesTap(w, v, tap)
    ensures forall i :: i in w.running ==> exists v :: v != user && v in w.instances && w.instances[v] == i
  {
  }

  // ---------- operations of different users may overlap ----------

  /** Every call in progress finds its own user's record and registration as it should, and those of every
      user without one agree. */
  ghost predicate UsersAgree(s: System)
  {
    && (forall id :: id in s.calls && !s.calls[id].Finished? ==> Midway(s.world, s.calls[id]))
    && (forall user :: Idle(s, user) ==> Agrees(s.world, user))
  }

  ghost predicate Idle(s: System, user: string)
  {
    forall id :: id in s.calls && s.calls[id].user == user ==> s.calls[id].Finished?
  }

  /** No user has two calls in progress. */
  ghost predicate OneCallEach(s: System)
  {
    forall i, j :: i in s.calls && j in s.calls && i != j && !s.calls[i].Finished? && !s.calls[j].Finished? ==>
                     s.calls[i].user != s.calls[j].user
  }

  /** The event is no failed Redis command. */
  predicate RedisEventObeys(s: System, e: Event)
  {
    e.Advance? && e.id in s.calls && TouchesRedis(s.calls[e.id]) ==> e.ok
  }

  lemma OthersMidway(cfg: Config, w: World, c: Call, ok: bool, d: Call)
    requires Midway(w, d) && d.user != c.user
    ensures Midway(Effect(cfg, w, c, ok), d)
  {
    RecordsElsewhere(cfg, w, c, ok, d.user);
    InstancesElsewhere(cfg, w, c, ok, d.user);
    SameForUser(w, Effect(cfg, w, c, ok), d);
  }

  lemma SameForUser(w: World, v: World, d: Call)
    requires Midway(w, d)
    requires d.user in v.records <==> d.user in w.records
    requires d.user in v.records ==> v.records[d.user] == w.records[d.user]
    requires d.user in v.instances <==> d.user in w.instances
    requires d.user in v.instances ==> v.instances[d.user] == w.instances[d.user]
    ensures Midway(v, d)
  {
  }

  lemma AdvanceKeepsUsersAgree(cfg: Config, s: System, id: nat, ok: bool)
    requires UsersAgree(s) && OneCallEach(s) && id in s.calls && RedisEventObeys(s, Advance(id, ok))
    requires !s.calls[id].Finished?
    ensures UsersAgree(Step(cfg, s, Advance(id, ok)))
  {
    var c, t := s.calls[id], Step(cfg, s, Advance(id, ok));
    NextKeepsUser(cfg, s.world, c, ok);
    MidwayStep(cfg, s.world, c, ok);
    forall j | j in t.calls && !t.calls[j].Finished?
      ensures Midway(t.world, t.calls[j])
    {
      if j != id {
        OthersMidway(cfg, s.world, c, ok, s.calls[j]);
      }
    }
    forall user | Idle(t, user)
      ensures Agrees(t.world, user)
    {
      if user == c.user {
        assert t.calls[id].Finished?;
      } else {
        IdleBefore(s, t, id, user);
        OthersUntouched(cfg, s.world, c, ok, user);
      }
    }
  }

  lemma IdleBefore(s: System, t: System, id: nat, user: string)
    requires Idle(t, user) && id in s.calls && s.calls[id].user != user
    requires id in t.calls && t.calls == s.calls[id := t.calls[id]]
    ensures Idle(s, user)
  {
    forall j | j in s.calls && s.calls[j].user == user
      ensures s.calls[j].Finished?
    {
      assert t.calls[j] == s.calls[j];
    }
  }

  lemma BeginKeepsUsersAgree(cfg: Config, s: System, id: nat, c: Call)
    requires UsersAgree(s) && IsEntry(c) && id !in s.calls
    requires OneCallEach(Step(cfg, s, Begin(id, c)))
    ensures UsersAgree(Step(cfg, s, Begin(id, c)))
  {
    var t := Step(cfg, s, Begin(id, c));
    forall j | j in s.calls && s.calls[j].user == c.user
      ensures s.calls[j].Finished?
    {
      assert t.calls[j] == s.calls[j] && t.calls[id] == c && j != id;
    }
    assert Idle(s, c.user);
    forall user | Idle(t, user)
      ensures Idle(s, user)
    {
      forall j | j in s.calls && s.calls[j].user == user
        ensures s.calls[j].Finished?
      {
        assert t.calls[j] == s.calls[j];
      }
    }
  }

  lemma StepKeepsUsersAgree(cfg: Config, s: System, e: Event)
    requires UsersAgree(s) && OneCallEach(s) && OneCallEach(Step(cfg, s, e)) && RedisEventObeys(s, e)
    ensures UsersAgree(Step(cfg, s, e))
  {
    match e {
      case Begin(id, c) =>
        if IsEntry(c) && id !in s.calls {
          BeginKeepsUsersAgree(cfg, s, id, c);
        }
      case Advance(id, ok) =>
        if id in s.calls && !s.calls[id].Finished? {
          AdvanceKeepsUsersAgree(cfg, s, id, ok);
        } else if id in s.calls {
          assert s.calls[id := s.calls[id]] == s.calls;
        }
      case Halt(i) => HaltKeepsUsersAgree(cfg, s, i);
    }
  }

  lemma HaltKeepsUsersAgree(cfg: Config, s: System, i: Instance)
    requires UsersAgree(s)
    ensures UsersAgree(Step(cfg, s, Halt(i)))
  {
    var t := Step(cfg, s, Halt(i));
    forall id | id in t.calls && !t.calls[id].Finished?
      ensures Midway(t.world, t.calls[id])
    {
      SameMidway(s.world, t.world, s.calls[id]);
    }
    forall user | Idle(t, user)
      ensures Agrees(t.world, user)
    {
      assert Idle(s, user);
    }
  }

  /** In every run in which no user has two calls in progress at once and Redis works, however calls of
      different users interleave and whatever else fails: whenever a user has no call in progress, the
      registry and the user's record agree, and the record does not say provisioning. */
  lemma {:induction false} IdleUsersAgree(cfg: Config, events: seq<Event>)
    requires forall n :: 0 <= n <= |events| ==> OneCallEach(Run(cfg, events[..n]))
    requires forall n :: 0 <= n < |events| ==> RedisEventObeys(Run(cfg, events[..n]), events[n])
    ensures UsersAgree(Run(cfg, events))
  {
    if events != [] {
      var prefix, e := events[..|events| - 1], events[|events| - 1];
      assert forall n :: 0 <= n <= |prefix| ==> prefix[..n] == events[..n];
      IdleUsersAgree(cfg, prefix);
      assert prefix == events[..|prefix|] && events[..|events|] == events;
      StepKeepsUsersAgree(cfg, Run(cfg, prefix), e);
    }
  }
}

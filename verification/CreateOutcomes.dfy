/** How a create advanced alone ends, for every pattern of failures: what a failed one gives back, and
    exactly when it leaves rules behind. */
module CreateOutcomes {
  import opened Numerals
  import opened Wrappers
  import opened AddressPool
  import opened Firewall
  import opened Protocol
  import opened Lifecycle
  import opened LoneRuns

  // ---------- how far a create gets ----------

  /** The checks and commands up to the data volume succeed, and ip is the address leased. */
  ghost predicate Provisions(cfg: Config, w: World, user: string, ip: string, fate: Fate)
  {
    && user !in w.instances && fate(SaveInitial(user))
    && FirstFree(cfg.pool, 0, w.leases.Keys) == Some(ip)
    && fate(CopyRootfs(user, ip)) && fate(MakeData(user, ip))
  }

  ghost predicate Attaches(w: World, user: string, ip: string, fate: Fate)
  {
    forall k: nat :: k < TAP_COMMANDS ==> fate(TapCommand(user, ip, TapName(w.nextIdx), k))
  }

  ghost predicate AddsRules(w: World, user: string, ip: string, n: nat, fate: Fate)
  {
    forall k: nat :: k < n ==> fate(AddRule(user, ip, TapName(w.nextIdx), k))
  }

  /** This create gets to its isolation rules, and the first that cannot be added is rule n. */
  ghost predicate SetupFailsAt(cfg: Config, w: World, user: string, ip: string, n: nat, fate: Fate)
  {
    && Provisions(cfg, w, user, ip, fate) && Attaches(w, user, ip, fate)
    && n < RULES && AddsRules(w, user, ip, n, fate) && !fate(AddRule(user, ip, TapName(w.nextIdx), n))
  }

  /** Every command up to the launch succeeds. */
  ghost predicate Isolates(cfg: Config, w: World, user: string, ip: string, fate: Fate)
  {
    Provisions(cfg, w, user, ip, fate) && Attaches(w, user, ip, fate) && AddsRules(w, user, ip, RULES, fate)
  }

  /** The lowest of k to n-1 that fails, or n. */
  function FirstFailing(ok: nat -> bool, k: nat, n: nat): (f: nat)
    requires k <= n
    ensures k <= f <= n && (forall j :: k <= j < f ==> ok(j)) && (f < n ==> !ok(f))
    decreases n - k
  {
    if k == n || !ok(k) then k else FirstFailing(ok, k + 1, n)
  }

  // ---------- the stretches of a create ----------

  /** w after the address and the storage of the user's create. */
  function Provisioned(w: World, user: string, ip: string): World
  {
    w.(records := w.records[user := Record(Provisioning, "", "")], leases := w.leases[ip := user],
       storage := w.storage + {user})
  }

  lemma BeginningRuns(cfg: Config, w: World, user: string, fate: Fate)
    requires user !in w.instances && fate(SaveInitial(user))
    ensures RunAlone(cfg, w, CheckExists(user), fate) ==
            RunAlone(cfg, w.(records := w.records[user := Record(Provisioning, "", "")]), Allocate(user), fate)
  {
    Unfold(cfg, w, CheckExists(user), fate);
    Unfold(cfg, w, SaveInitial(user), fate);
  }

  /** Up to the lease, the root file system and, if that can be copied, the data volume. */
  lemma StorageRuns(cfg: Config, w: World, user: string, ip: string, fate: Fate)
    requires user !in w.instances && fate(SaveInitial(user)) && FirstFree(cfg.pool, 0, w.leases.Keys) == Some(ip)
    ensures RunAlone(cfg, w, CheckExists(user), fate) ==
            RunAlone(cfg, Provisioned(w, user, ip),
                     if fate(CopyRootfs(user, ip)) && fate(MakeData(user, ip)) then TakeTapIndex(user, ip)
                     else ReleaseAddress(user, ip, CreateFailed(Record(Errored, ip, ""))), fate)
  {
    BeginningRuns(cfg, w, user, fate);
    var w1 := w.(records := w.records[user := Record(Provisioning, "", "")]);
    Unfold(cfg, w1, Allocate(user), fate);
    var w2 := w1.(leases := w1.leases[ip := user]);
    Unfold(cfg, w2, CopyRootfs(user, ip), fate);
    var w3 := w2.(storage := w2.storage + {user});
    assert w3 == Provisioned(w, user, ip);
    if fate(CopyRootfs(user, ip)) {
      Unfold(cfg, w3, MakeData(user, ip), fate);
      assert w3.(storage := w3.storage + {user}) == w3;
    }
  }

  /** w after the device of the user's create and its rules 0 to n-1. */
  function Networked(cfg: Config, w: World, ip: string, n: nat): World
  {
    w.(nextIdx := w.nextIdx + 1, taps := w.taps + {TapName(w.nextIdx)},
       chain := w.chain + RuleSpan(cfg.gateway, ip, 0, n))
  }

  lemma AttachedRuns(cfg: Config, w: World, user: string, ip: string, fate: Fate)
    requires Attaches(w, user, ip, fate)
    ensures RunAlone(cfg, w, TakeTapIndex(user, ip), fate) ==
            RunAlone(cfg, Networked(cfg, w, ip, 0), AddRule(user, ip, TapName(w.nextIdx), 0), fate)
  {
    TapOutcome(cfg, w, user, ip, TapName(w.nextIdx), TAP_COMMANDS, fate);
    assert w.chain + RuleSpan(cfg.gateway, ip, 0, 0) == w.chain;
  }

  lemma RulesFollow(cfg: Config, w: World, ip: string, n: nat)
    ensures var v := Networked(cfg, w, ip, 0);
            v.(chain := v.chain + RuleSpan(cfg.gateway, ip, 0, n)) == Networked(cfg, w, ip, n)
  {
    assert w.chain + RuleSpan(cfg.gateway, ip, 0, 0) == w.chain;
  }

  lemma NetworkRuns(cfg: Config, w: World, user: string, ip: string, fate: Fate)
    requires Attaches(w, user, ip, fate) && AddsRules(w, user, ip, RULES, fate)
    ensures RunAlone(cfg, w, TakeTapIndex(user, ip), fate) ==
            RunAlone(cfg, Networked(cfg, w, ip, RULES), Launch(user, ip, TapName(w.nextIdx)), fate)
  {
    AttachedRuns(cfg, w, user, ip, fate);
    SetupOutcome(cfg, Networked(cfg, w, ip, 0), user, ip, TapName(w.nextIdx), RULES, fate);
    RulesFollow(cfg, w, ip, RULES);
  }

  /** A setup that fails gives its device back, and nothing of its rules. */
  lemma FailedNetworkRuns(cfg: Config, w: World, user: string, ip: string, n: nat, fate: Fate)
    requires Attaches(w, user, ip, fate) && n < RULES
    requires AddsRules(w, user, ip, n, fate) && !fate(AddRule(user, ip, TapName(w.nextIdx), n))
    ensures var tap := TapName(w.nextIdx);
            var exit, v := CreateFailed(Record(Errored, ip, tap)), Networked(cfg, w, ip, n);
            RunAlone(cfg, w, TakeTapIndex(user, ip), fate) ==
            RunAlone(cfg, v.(taps := if fate(DeleteTap(user, ip, tap, exit)) then v.taps - {tap} else v.taps),
                     ReleaseAddress(user, ip, exit), fate)
  {
    AttachedRuns(cfg, w, user, ip, fate);
    SetupOutcome(cfg, Networked(cfg, w, ip, 0), user, ip, TapName(w.nextIdx), n, fate);
    RulesFollow(cfg, w, ip, n);
  }

  lemma LaunchRuns(cfg: Config, w: World, user: string, ip: string, tap: string, fate: Fate)
    requires fate(Launch(user, ip, tap))
    ensures RunAlone(cfg, w, Launch(user, ip, tap), fate) ==
            (w.(running := w.running + {Instance(ip, tap)}, instances := w.instances[user := Instance(ip, tap)],
                records := if fate(SaveRunning(user, ip, tap)) then w.records[user := Record(Running, ip, tap)] else w.records),
             Finished(user, Created))
  {
    Unfold(cfg, w, Launch(user, ip, tap), fate);
    var w1 := w.(running := w.running + {Instance(ip, tap)});
    Unfold(cfg, w1, Register(user, ip, tap), fate);
    Unfold(cfg, w1.(instances := w1.instances[user := Instance(ip, tap)]), SaveRunning(user, ip, tap), fate);
  }

  /** w after a create that fails gave back its address and wrote its record, if Redis took it. */
  function Abandoned(w: World, user: string, ip: string, info: Record, fate: Fate): World
  {
    w.(leases := w.leases - {ip}, records := if fate(SaveError(user, info)) then w.records[user := info] else w.records)
  }

  lemma AbandonRuns(cfg: Config, w: World, user: string, ip: string, info: Record, fate: Fate)
    ensures RunAlone(cfg, w, ReleaseAddress(user, ip, CreateFailed(info)), fate) ==
            (Abandoned(w, user, ip, info, fate), Finished(user, Failed))
  {
    Unfold(cfg, w, ReleaseAddress(user, ip, CreateFailed(info)), fate);
    Unfold(cfg, w.(leases := w.leases - {ip}), SaveError(user, info), fate);
  }

  // ---------- what a failed create leaves ----------

  /** Leases, processes and registry are as before, and so are all others' records and storage. */
  ghost predicate Undone(w: World, w': World, user: string)
  {
    && w'.leases == w.leases && w'.instances == w.instances && w'.running == w.running
    && w'.records - {user} == w.records - {user} && w'.storage - {user} == w.storage - {user}
  }

  /** What a failed create means to write to the user's record: an error, with the address if there was
      one and the device if it was made. */
  ghost function ErrorRecord(cfg: Config, w: World, user: string, fate: Fate): Record
  {
    match FirstFree(cfg.pool, 0, w.leases.Keys)
    case None => Record(Errored, "", "")
    case Some(ip) =>
      Record(Errored, ip, if fate(CopyRootfs(user, ip)) && fate(MakeData(user, ip)) && Attaches(w, user, ip, fate)
                          then TapName(w.nextIdx) else "")
  }

  /** The user's record after a failed create: none written if the first write failed, else the error if
      Redis takes it, else still the provisioning one. */
  ghost predicate ErrorRecorded(cfg: Config, w: World, w': World, user: string, fate: Fate)
  {
    w'.records ==
    if !fate(SaveInitial(user)) then w.records
    else
      var info := ErrorRecord(cfg, w, user, fate);
      w.records[user := if fate(SaveError(user, info)) then info else Record(Provisioning, "", "")]
  }

  /** The directory and the TAP name that a failed create has used up. */
  ghost predicate UsedUp(cfg: Config, w: World, w': World, user: string, fate: Fate)
  {
    var ip := FirstFree(cfg.pool, 0, w.leases.Keys);
    && w'.storage == (if fate(SaveInitial(user)) && ip.Some? then w.storage + {user} else w.storage)
    && w'.nextIdx == (if ip.Some? && Provisions(cfg, w, user, ip.value, fate) then w.nextIdx + 1 else w.nextIdx)
  }

  /** v is w but for the user's lease of ip, storage and record, the devices, the chain and the TAP
      counter. */
  ghost predicate Leased(w: World, v: World, user: string, ip: string)
  {
    && ip !in w.leases && v.leases == w.leases[ip := user]
    && v.instances == w.instances && v.running == w.running
    && v.records - {user} == w.records - {user} && v.storage - {user} == w.storage - {user}
  }

  lemma ProvisionedIsLeased(cfg: Config, w: World, user: string, ip: string)
    requires FirstFree(cfg.pool, 0, w.leases.Keys) == Some(ip)
    ensures Leased(w, Provisioned(w, user, ip), user, ip)
  {
    FirstFreeIsLowest(cfg.pool, 0, w.leases.Keys);
  }

  /** The record that a create which began in w and leaves with info ends with. */
  lemma AbandonedIsRecorded(cfg: Config, w: World, v: World, user: string, ip: string, info: Record, fate: Fate)
    requires fate(SaveInitial(user)) && info == ErrorRecord(cfg, w, user, fate)
    requires v.records == w.records[user := Record(Provisioning, "", "")]
    ensures ErrorRecorded(cfg, w, Abandoned(v, user, ip, info, fate), user, fate)
  {
    assert w.records[user := Record(Provisioning, "", "")][user := info] == w.records[user := info];
  }

  lemma AbandonedIsUndone(w: World, v: World, user: string, ip: string, info: Record, fate: Fate)
    requires Leased(w, v, user, ip)
    ensures Undone(w, Abandoned(v, user, ip, info, fate), user)
  {
    assert w.leases[ip := user] - {ip} == w.leases;
    assert v.records[user := info] - {user} == v.records - {user};
  }

  /** A create that does not get to its device. */
  lemma UnprovisionedCreate(cfg: Config, w: World, user: string, fate: Fate)
    requires forall ip :: !Provisions(cfg, w, user, ip, fate)
    ensures var (w', d) := RunAlone(cfg, w, CheckExists(user), fate);
            && d == Finished(user, if user in w.instances then AlreadyRunning else Failed)
            && Undone(w, w', user) && w'.chain == w.chain && w'.taps == w.taps
            && (if user in w.instances then w' == w
                else ErrorRecorded(cfg, w, w', user, fate) && UsedUp(cfg, w, w', user, fate))
  {
    if user in w.instances || !fate(SaveInitial(user)) {
      Unfold(cfg, w, CheckExists(user), fate);
      if user !in w.instances {
        Unfold(cfg, w, SaveInitial(user), fate);
      }
    } else {
      UnprovisionedFails(cfg, w, user, fate);
    }
  }

  lemma UnprovisionedFails(cfg: Config, w: World, user: string, fate: Fate)
    requires user !in w.instances && fate(SaveInitial(user)) && forall ip :: !Provisions(cfg, w, user, ip, fate)
    ensures var (w', d) := RunAlone(cfg, w, CheckExists(user), fate);
            d == Finished(user, Failed) && Undone(w, w', user) && w'.chain == w.chain && w'.taps == w.taps
            && ErrorRecorded(cfg, w, w', user, fate) && UsedUp(cfg, w, w', user, fate)
  {
    match FirstFree(cfg.pool, 0, w.leases.Keys) {
      case None => UnleasedFails(cfg, w, user, fate);
      case Some(ip) =>
        assert !Provisions(cfg, w, user, ip, fate);
        StorageRuns(cfg, w, user, ip, fate);
        AbandonRuns(cfg, Provisioned(w, user, ip), user, ip, Record(Errored, ip, ""), fate);
        ProvisionedIsLeased(cfg, w, user, ip);
        AbandonedIsUndone(w, Provisioned(w, user, ip), user, ip, Record(Errored, ip, ""), fate);
        AbandonedIsRecorded(cfg, w, Provisioned(w, user, ip), user, ip, Record(Errored, ip, ""), fate);
    }
  }

  lemma UnleasedFails(cfg: Config, w: World, user: string, fate: Fate)
    requires user !in w.instances && fate(SaveInitial(user)) && FirstFree(cfg.pool, 0, w.leases.Keys) == None
    ensures var (w', d) := RunAlone(cfg, w, CheckExists(user), fate);
            d == Finished(user, Failed) && Undone(w, w', user) && w'.chain == w.chain && w'.taps == w.taps
            && ErrorRecorded(cfg, w, w', user, fate) && UsedUp(cfg, w, w', user, fate)
  {
    BeginningRuns(cfg, w, user, fate);
    var w1 := w.(records := w.records[user := Record(Provisioning, "", "")]);
    Unfold(cfg, w1, Allocate(user), fate);
    Unfold(cfg, w1, SaveError(user, Record(Errored, "", "")), fate);
    AbandonedIsRecorded(cfg, w, w1, user, "", Record(Errored, "", ""), fate);
  }

  /** The devices are as before, if deletions of devices that exist succeed. */
  ghost predicate TapsUndone(w: World, w': World, fate: Fate)
  {
    TapDeletionsObey(fate) && TapName(w.nextIdx) !in w.taps ==> w'.taps == w.taps
  }

  /** A create whose device cannot be made. */
  lemma UnattachedCreate(cfg: Config, w: World, user: string, ip: string, fate: Fate)
    requires Provisions(cfg, w, user, ip, fate) && !Attaches(w, user, ip, fate)
    ensures var (w', d) := RunAlone(cfg, w, CheckExists(user), fate);
            && d == Finished(user, Failed) && Undone(w, w', user) && w'.chain == w.chain && TapsUndone(w, w', fate)
            && ErrorRecorded(cfg, w, w', user, fate) && UsedUp(cfg, w, w', user, fate)
  {
    var v := Provisioned(w, user, ip);
    StorageRuns(cfg, w, user, ip, fate);
    var taps := FailedTapRuns(cfg, v, user, ip, fate);
    var u := v.(nextIdx := v.nextIdx + 1, taps := taps);
    AbandonRuns(cfg, u, user, ip, Record(Errored, ip, ""), fate);
    ProvisionedIsLeased(cfg, w, user, ip);
    AbandonedIsUndone(w, u, user, ip, Record(Errored, ip, ""), fate);
    AbandonedIsRecorded(cfg, w, u, user, ip, Record(Errored, ip, ""), fate);
  }

  /** A device that cannot be made leaves just the counter, unless its undoing fails too. */
  lemma FailedTapRuns(cfg: Config, w: World, user: string, ip: string, fate: Fate) returns (taps: set<string>)
    requires !Attaches(w, user, ip, fate)
    ensures RunAlone(cfg, w, TakeTapIndex(user, ip), fate) ==
            RunAlone(cfg, w.(nextIdx := w.nextIdx + 1, taps := taps),
                     ReleaseAddress(user, ip, CreateFailed(Record(Errored, ip, ""))), fate)
    ensures TapDeletionsObey(fate) && TapName(w.nextIdx) !in w.taps ==> taps == w.taps
  {
    var tap := TapName(w.nextIdx);
    var ok := (k: nat) => fate(TapCommand(user, ip, tap, k));
    var failed := FirstFailing(ok, 0, TAP_COMMANDS);
    forall j: nat | j < failed
      ensures fate(TapCommand(user, ip, tap, j))
    {
      assert ok(j);
    }
    assert failed < TAP_COMMANDS && !fate(TapCommand(user, ip, tap, failed));
    TapOutcome(cfg, w, user, ip, tap, failed, fate);
    var made := if failed > 0 then w.taps + {tap} else w.taps;
    taps := if fate(UndoTap(user, ip, tap, failed)) then made - {tap} else made;
    if TapDeletionsObey(fate) && tap !in w.taps {
      assert failed > 0 ==> fate(UndoTap(user, ip, tap, failed));
      MadeAndUndone(w.taps, tap);
    }
  }

  lemma MadeAndUndone(taps: set<string>, tap: string)
    requires tap !in taps
    ensures (taps + {tap}) - {tap} == taps && taps - {tap} == taps
  {
  }

  /** A create whose setup fails at rule n leaves exactly the rules before it, at the end of the chain. */
  lemma FailedSetupLeavesRules(cfg: Config, w: World, user: string, ip: string, n: nat, fate: Fate)
    requires SetupFailsAt(cfg, w, user, ip, n, fate)
    ensures var (w', d) := RunAlone(cfg, w, CheckExists(user), fate);
            && d == Finished(user, Failed) && w'.chain == w.chain + RuleSpan(cfg.gateway, ip, 0, n)
            && Undone(w, w', user) && TapsUndone(w, w', fate)
            && ErrorRecorded(cfg, w, w', user, fate) && UsedUp(cfg, w, w', user, fate)
  {
    var tap, v := TapName(w.nextIdx), Provisioned(w, user, ip);
    var info := Record(Errored, ip, tap);
    StorageRuns(cfg, w, user, ip, fate);
    FailedNetworkRuns(cfg, v, user, ip, n, fate);
    var u := Networked(cfg, v, ip, n);
    var v' := u.(taps := if fate(DeleteTap(user, ip, tap, CreateFailed(info))) then u.taps - {tap} else u.taps);
    AbandonRuns(cfg, v', user, ip, info, fate);
    ProvisionedIsLeased(cfg, w, user, ip);
    AbandonedIsUndone(w, v', user, ip, info, fate);
    AbandonedIsRecorded(cfg, w, v', user, ip, info, fate);
    if tap !in w.taps {
      MadeAndUndone(w.taps, tap);
    }
  }

  /** The five deletions of a failed launch. */
  function LaunchCleanup(w: World, user: string, ip: string, fate: Fate): nat -> bool
  {
    CleanupFate(user, ip, TapName(w.nextIdx), CreateFailed(Record(Errored, ip, TapName(w.nextIdx))), fate)
  }

  /** This create gets to its launch, which fails. */
  ghost predicate LaunchFails(cfg: Config, w: World, user: string, ip: string, fate: Fate)
  {
    Isolates(cfg, w, user, ip, fate) && !fate(Launch(user, ip, TapName(w.nextIdx)))
  }

  lemma ChainIsGivenBack(cfg: Config, chain: seq<Rule>, ip: string, ok: nat -> bool)
    ensures multiset(Cleaned(cfg.gateway, chain + RuleSpan(cfg.gateway, ip, 0, RULES), ip, 0, ok))
         == multiset(chain) + multiset(Undeleted(cfg.gateway, ip, 0, ok))
  {
    CleanupAfterSetup(cfg.gateway, chain, [], ip, ok);
    assert chain + RuleSpan(cfg.gateway, ip, 0, RULES) + [] == chain + RuleSpan(cfg.gateway, ip, 0, RULES) && chain + [] == chain;
  }

  /** w after the rules and the device of a failed launch were deleted, as far as that goes. */
  function CleanedUp(cfg: Config, w: World, user: string, ip: string, tap: string, fate: Fate): World
  {
    var exit := CreateFailed(Record(Errored, ip, tap));
    w.(chain := Cleaned(cfg.gateway, w.chain, ip, 0, CleanupFate(user, ip, tap, exit, fate)),
       taps := if fate(DeleteTap(user, ip, tap, exit)) then w.taps - {tap} else w.taps)
  }

  lemma FailedLaunchRuns(cfg: Config, w: World, user: string, ip: string, tap: string, fate: Fate)
    requires !fate(Launch(user, ip, tap))
    ensures RunAlone(cfg, w, Launch(user, ip, tap), fate) ==
            (Abandoned(CleanedUp(cfg, w, user, ip, tap, fate), user, ip, Record(Errored, ip, tap), fate), Finished(user, Failed))
  {
    var info := Record(Errored, ip, tap);
    Unfold(cfg, w, Launch(user, ip, tap), fate);
    GivingBackRuns(cfg, w, user, ip, tap, CreateFailed(info), fate);
    Unfold(cfg, GivenBack(cfg, w, user, ip, tap, CreateFailed(info), fate), SaveError(user, info), fate);
  }

  lemma UnlaunchedRuns(cfg: Config, w: World, user: string, ip: string, fate: Fate)
    requires LaunchFails(cfg, w, user, ip, fate)
    ensures var tap, u := TapName(w.nextIdx), Networked(cfg, Provisioned(w, user, ip), ip, RULES);
            RunAlone(cfg, w, CheckExists(user), fate) ==
            (Abandoned(CleanedUp(cfg, u, user, ip, tap, fate), user, ip, Record(Errored, ip, tap), fate), Finished(user, Failed))
  {
    var v := Provisioned(w, user, ip);
    StorageRuns(cfg, w, user, ip, fate);
    NetworkRuns(cfg, v, user, ip, fate);
    FailedLaunchRuns(cfg, Networked(cfg, v, ip, RULES), user, ip, TapName(w.nextIdx), fate);
  }

  /** A create whose process does not start leaves exactly the rules it fails to delete. */
  lemma FailedLaunch(cfg: Config, w: World, user: string, ip: string, fate: Fate)
    requires LaunchFails(cfg, w, user, ip, fate)
    ensures var (w', d) := RunAlone(cfg, w, CheckExists(user), fate);
            && d == Finished(user, Failed) && Undone(w, w', user) && TapsUndone(w, w', fate)
            && ErrorRecorded(cfg, w, w', user, fate) && UsedUp(cfg, w, w', user, fate)
            && multiset(w'.chain) ==
               multiset(w.chain) + multiset(Undeleted(cfg.gateway, ip, 0, LaunchCleanup(w, user, ip, fate)))
  {
    var tap, v := TapName(w.nextIdx), Provisioned(w, user, ip);
    var info, u := Record(Errored, ip, tap), Networked(cfg, v, ip, RULES);
    UnlaunchedRuns(cfg, w, user, ip, fate);
    ChainIsGivenBack(cfg, w.chain, ip, LaunchCleanup(w, user, ip, fate));
    ProvisionedIsLeased(cfg, w, user, ip);
    AbandonedIsUndone(w, CleanedUp(cfg, u, user, ip, tap, fate), user, ip, info, fate);
    AbandonedIsRecorded(cfg, w, CleanedUp(cfg, u, user, ip, tap, fate), user, ip, info, fate);
    if tap !in w.taps {
      MadeAndUndone(w.taps, tap);
    }
  }

  /** This create gets to its launch, which succeeds. */
  ghost predicate Launches(cfg: Config, w: World, user: string, ip: string, fate: Fate)
  {
    Isolates(cfg, w, user, ip, fate) && fate(Launch(user, ip, TapName(w.nextIdx)))
  }

  /** w with a VM of the user at address ip. */
  function WithVm(cfg: Config, w: World, user: string, ip: string, info: Record): World
  {
    var tap := TapName(w.nextIdx);
    World(w.leases[ip := user], w.nextIdx + 1, w.taps + {tap}, w.chain + RuleSpan(cfg.gateway, ip, 0, RULES),
          w.instances[user := Instance(ip, tap)], w.running + {Instance(ip, tap)},
          w.records[user := info], w.storage + {user})
  }

  /** The user's record after a create that succeeds: running, if Redis takes it. */
  function FinalRecord(w: World, user: string, ip: string, fate: Fate): Record
  {
    var tap := TapName(w.nextIdx);
    if fate(SaveRunning(user, ip, tap)) then Record(Running, ip, tap) else Record(Provisioning, "", "")
  }

  /** A create whose process starts. */
  lemma LaunchedCreate(cfg: Config, w: World, user: string, ip: string, fate: Fate)
    requires Launches(cfg, w, user, ip, fate)
    ensures RunAlone(cfg, w, CheckExists(user), fate) ==
            (WithVm(cfg, w, user, ip, FinalRecord(w, user, ip, fate)), Finished(user, Created))
  {
    var v := Provisioned(w, user, ip);
    StorageRuns(cfg, w, user, ip, fate);
    NetworkRuns(cfg, v, user, ip, fate);
    LaunchRuns(cfg, Networked(cfg, v, ip, RULES), user, ip, TapName(w.nextIdx), fate);
    AssembledVm(cfg, w, user, ip, fate);
  }

  lemma AssembledVm(cfg: Config, w: World, user: string, ip: string, fate: Fate)
    ensures var v, i := Networked(cfg, Provisioned(w, user, ip), ip, RULES), Instance(ip, TapName(w.nextIdx));
            v.(running := v.running + {i}, instances := v.instances[user := i],
               records := if fate(SaveRunning(user, ip, i.tap)) then v.records[user := Record(Running, ip, i.tap)] else v.records)
            == WithVm(cfg, w, user, ip, FinalRecord(w, user, ip, fate))
  {
    assert w.records[user := Record(Provisioning, "", "")][user := Record(Running, ip, TapName(w.nextIdx))]
        == w.records[user := Record(Running, ip, TapName(w.nextIdx))];
  }

  /** This create fails in neither its setup nor its launch, if at all. */
  ghost predicate FailsElsewhere(cfg: Config, w: World, user: string, fate: Fate)
  {
    && (forall ip, n: nat :: !SetupFailsAt(cfg, w, user, ip, n, fate))
    && (forall ip :: !LaunchFails(cfg, w, user, ip, fate))
  }

  lemma OtherCreates(cfg: Config, w: World, user: string, fate: Fate)
    requires FailsElsewhere(cfg, w, user, fate) && user !in w.instances
    requires forall ip :: !Launches(cfg, w, user, ip, fate)
    ensures var (w', d) := RunAlone(cfg, w, CheckExists(user), fate);
            && d == Finished(user, Failed) && Undone(w, w', user) && TapsUndone(w, w', fate) && w'.chain == w.chain
            && ErrorRecorded(cfg, w, w', user, fate) && UsedUp(cfg, w, w', user, fate)
  {
    forall ip | Provisions(cfg, w, user, ip, fate)
      ensures !Attaches(w, user, ip, fate)
    {
      if Attaches(w, user, ip, fate) {
        PastTheDevice(cfg, w, user, ip, fate);
      }
    }
    if ip :| Provisions(cfg, w, user, ip, fate) {
      UnattachedCreate(cfg, w, user, ip, fate);
    } else {
      UnprovisionedCreate(cfg, w, user, fate);
    }
  }

  lemma PastTheDevice(cfg: Config, w: World, user: string, ip: string, fate: Fate)
    requires Provisions(cfg, w, user, ip, fate) && Attaches(w, user, ip, fate)
    ensures || (exists n: nat :: SetupFailsAt(cfg, w, user, ip, n, fate))
            || LaunchFails(cfg, w, user, ip, fate) || Launches(cfg, w, user, ip, fate)
  {
    var n := FirstFailing((k: nat) => fate(AddRule(user, ip, TapName(w.nextIdx), k)), 0, RULES);
    assert n < RULES ==> SetupFailsAt(cfg, w, user, ip, n, fate);
  }

  /** How every create ends. It finds the user registered and does nothing; or all its commands up to the
      launch succeed, and the user has a VM; or it fails, gives back what it held and records an error. */
  lemma CreateEnds(cfg: Config, w: World, user: string, fate: Fate)
    ensures var (w', d) := RunAlone(cfg, w, CheckExists(user), fate);
            && d.Finished? && d.user == user
            && (d.outcome == AlreadyRunning <==> user in w.instances)
            && (d.outcome == Created <==> exists ip :: Launches(cfg, w, user, ip, fate))
            && (d.outcome == AlreadyRunning ==> w' == w)
            && (forall ip :: Launches(cfg, w, user, ip, fate) ==>
                  w' == WithVm(cfg, w, user, ip, FinalRecord(w, user, ip, fate)))
            && (d.outcome != AlreadyRunning && d.outcome != Created ==>
                  && d.outcome == Failed && Undone(w, w', user) && TapsUndone(w, w', fate)
                  && ErrorRecorded(cfg, w, w', user, fate) && UsedUp(cfg, w, w', user, fate))
  {
    if user in w.instances {
      UnprovisionedCreate(cfg, w, user, fate);
    } else if ip :| Launches(cfg, w, user, ip, fate) {
      LaunchedCreate(cfg, w, user, ip, fate);
    } else if ip, n: nat :| SetupFailsAt(cfg, w, user, ip, n, fate) {
      FailedSetupLeavesRules(cfg, w, user, ip, n, fate);
    } else if ip :| LaunchFails(cfg, w, user, ip, fate) {
      FailedLaunch(cfg, w, user, ip, fate);
    } else {
      OtherCreates(cfg, w, user, fate);
    }
  }

  /** A create that fails, at whatever step and whatever else fails, leaves leases, processes and
      registry as they were, and the devices too if those that exist can be deleted. Its rules: when its
      own setup failed at rule n, the n rules before it are at the end of the chain; when its launch
      failed, those it could not delete are left; otherwise the chain is as before. (After a failed
      launch the order of equal rules may differ: -D removes the first copy.) */
  lemma FailedCreateRollsBack(cfg: Config, w: World, user: string, fate: Fate)
    ensures var (w', d) := RunAlone(cfg, w, CheckExists(user), fate);
            d.Finished? && (d.outcome == Failed ==>
              && Undone(w, w', user) && TapsUndone(w, w', fate)
              && (forall ip, n: nat :: SetupFailsAt(cfg, w, user, ip, n, fate) ==>
                    w'.chain == w.chain + RuleSpan(cfg.gateway, ip, 0, n))
              && (forall ip :: LaunchFails(cfg, w, user, ip, fate) ==>
                    multiset(w'.chain) ==
                    multiset(w.chain) + multiset(Undeleted(cfg.gateway, ip, 0, LaunchCleanup(w, user, ip, fate))))
              && (FailsElsewhere(cfg, w, user, fate) ==> w'.chain == w.chain))
  {
    CreateEnds(cfg, w, user, fate);
    var (w', d) := RunAlone(cfg, w, CheckExists(user), fate);
    forall ip, n: nat | SetupFailsAt(cfg, w, user, ip, n, fate)
      ensures w'.chain == w.chain + RuleSpan(cfg.gateway, ip, 0, n)
    {
      FailedSetupLeavesRules(cfg, w, user, ip, n, fate);
    }
    forall ip | LaunchFails(cfg, w, user, ip, fate)
      ensures multiset(w'.chain) ==
              multiset(w.chain) + multiset(Undeleted(cfg.gateway, ip, 0, LaunchCleanup(w, user, ip, fate)))
    {
      FailedLaunch(cfg, w, user, ip, fate);
    }
    if d.outcome == Failed && FailsElsewhere(cfg, w, user, fate) {
      OtherCreates(cfg, w, user, fate);
    }
  }

  lemma LongerChain(chain: seq<Rule>, chain': seq<Rule>, more: seq<Rule>)
    requires multiset(chain') == multiset(chain) + multiset(more)
    ensures multiset(chain') == multiset(chain) <==> more == []
  {
    assert |multiset(chain) + multiset(more)| == |chain| + |more|;
  }

  /** A failed create leaves rules behind if and only if its own setup failed after the first rule, or its
      launch failed and then one of its five deletions. */
  lemma RulesRemainIff(cfg: Config, w: World, user: string, fate: Fate)
    requires RunAlone(cfg, w, CheckExists(user), fate).1 == Finished(user, Failed)
    ensures multiset(RunAlone(cfg, w, CheckExists(user), fate).0.chain) != multiset(w.chain) <==>
            || (exists ip, n: nat :: n > 0 && SetupFailsAt(cfg, w, user, ip, n, fate))
            || (exists ip, k: nat :: LaunchFails(cfg, w, user, ip, fate) && k < RULES && !LaunchCleanup(w, user, ip, fate)(k))
  {
    FailedCreateRollsBack(cfg, w, user, fate);
    var chain := RunAlone(cfg, w, CheckExists(user), fate).0.chain;
    forall ip, n: nat | SetupFailsAt(cfg, w, user, ip, n, fate)
      ensures multiset(chain) == multiset(w.chain) <==> n == 0
      ensures forall ip' :: !LaunchFails(cfg, w, user, ip', fate)
    {
      LongerChain(w.chain, chain, RuleSpan(cfg.gateway, ip, 0, n));
    }
    forall ip | LaunchFails(cfg, w, user, ip, fate)
      ensures multiset(chain) == multiset(w.chain) <==> forall k: nat :: k < RULES ==> LaunchCleanup(w, user, ip, fate)(k)
    {
      var ok := LaunchCleanup(w, user, ip, fate);
      LongerChain(w.chain, chain, Undeleted(cfg.gateway, ip, 0, ok));
      UndeletedIff(cfg.gateway, ip, 0, ok);
    }
  }
}

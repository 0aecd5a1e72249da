/** Stretches of a call that is advanced alone: what a cleanup makes of a chain, and where the commands of
    a device, a setup or a cleanup leave the call. */
module LoneRuns {
  import opened Numerals
  import opened Wrappers
  import opened AddressPool
  import opened Firewall
  import opened Protocol
  import opened Lifecycle

  /** What CleanupVMIsolation makes of a chain: best effort, rule after rule from step on. */
  function Cleaned(gateway: string, chain: seq<Rule>, ip: string, step: nat, ok: nat -> bool): seq<Rule>
    decreases RULES - step, ip
  {
    if step >= RULES then chain
    else Cleaned(gateway, if ok(step) then DeleteFirst(chain, IsolationRule(gateway, ip, step)) else chain, ip, step + 1, ok)
  }

  lemma CleanedStep(gateway: string, chain: seq<Rule>, ip: string, step: nat, ok: nat -> bool)
    requires step < RULES
    ensures var rest := if ok(step) then DeleteFirst(chain, IsolationRule(gateway, ip, step)) else chain;
            Cleaned(gateway, chain, ip, step, ok) == if step + 1 < RULES then Cleaned(gateway, rest, ip, step + 1, ok) else rest
  {
  }

  /** The rules of steps from step on that a cleanup does not get to delete. */
  function Undeleted(gateway: string, ip: string, step: nat, ok: nat -> bool): seq<Rule>
    decreases RULES - step, ip
  {
    if step >= RULES then []
    else (if ok(step) then [] else [IsolationRule(gateway, ip, step)]) + Undeleted(gateway, ip, step + 1, ok)
  }

  lemma {:induction false} UndeletedIff(gateway: string, ip: string, step: nat, ok: nat -> bool)
    ensures Undeleted(gateway, ip, step, ok) == [] <==> forall k :: step <= k < RULES ==> ok(k)
    decreases RULES - step
  {
    if step < RULES {
      UndeletedIff(gateway, ip, step + 1, ok);
    }
  }

  /** A cleanup takes one copy of each rule whose deletion succeeds, wherever it stands. */
  lemma {:induction false} CleanedLeaves(gateway: string, chain: seq<Rule>, ip: string, step: nat, ok: nat -> bool,
                                         rest: multiset<Rule>)
    requires step <= RULES && multiset(chain) == rest + multiset(RuleSpan(gateway, ip, step, RULES))
    ensures multiset(Cleaned(gateway, chain, ip, step, ok)) == rest + multiset(Undeleted(gateway, ip, step, ok))
    decreases RULES - step
  {
    if step == RULES {
      assert RuleSpan(gateway, ip, step, RULES) == [];
    } else {
      var r, next := IsolationRule(gateway, ip, step), RuleSpan(gateway, ip, step + 1, RULES);
      SpanGrows(gateway, ip, step, RULES - 1);
      assert multiset([r] + next) == multiset{r} + multiset(next);
      CleanedStep(gateway, chain, ip, step, ok);
      if ok(step) {
        DeleteFirstCounts(chain, r);
        TakenOut(multiset(chain), rest, r, multiset(next));
        CleanedLeaves(gateway, DeleteFirst(chain, r), ip, step + 1, ok, rest);
      } else {
        CleanedLeaves(gateway, chain, ip, step + 1, ok, rest + multiset{r});
        UndeletedStep(gateway, ip, step, ok);
      }
    }
  }

  lemma TakenOut(chain: multiset<Rule>, rest: multiset<Rule>, r: Rule, next: multiset<Rule>)
    requires chain == rest + (multiset{r} + next)
    ensures chain - multiset{r} == rest + next
  {
  }

  lemma UndeletedStep(gateway: string, ip: string, step: nat, ok: nat -> bool)
    requires step < RULES && !ok(step)
    ensures var r := IsolationRule(gateway, ip, step);
            multiset(Undeleted(gateway, ip, step, ok)) == multiset{r} + multiset(Undeleted(gateway, ip, step + 1, ok))
  {
  }

  /** A cleanup after a setup leaves, besides what others have in the chain, exactly the rules whose
      deletion failed. */
  lemma CleanupAfterSetup(gateway: string, before: seq<Rule>, after: seq<Rule>, ip: string, ok: nat -> bool)
    ensures multiset(Cleaned(gateway, before + RuleSpan(gateway, ip, 0, RULES) + after, ip, 0, ok))
         == multiset(before + after) + multiset(Undeleted(gateway, ip, 0, ok))
  {
    CleanedLeaves(gateway, before + RuleSpan(gateway, ip, 0, RULES) + after, ip, 0, ok, multiset(before + after));
  }

  /** Cleaning up undoes setting up if and only if every deletion succeeds, whatever other VMs added in
      between. */
  lemma CleanupUndoesSetup(gateway: string, before: seq<Rule>, after: seq<Rule>, ip: string, ok: nat -> bool)
    ensures var cleaned := Cleaned(gateway, before + RuleSpan(gateway, ip, 0, RULES) + after, ip, 0, ok);
            multiset(cleaned) == multiset(before + after) <==> forall k :: 0 <= k < RULES ==> ok(k)
  {
    CleanupAfterSetup(gateway, before, after, ip, ok);
    UndeletedIff(gateway, ip, 0, ok);
    var left := Undeleted(gateway, ip, 0, ok);
    assert |multiset(before + after) + multiset(left)| == |before + after| + |left|;
  }

  // ---------- stretches of a lone call ----------

  lemma Unfold(cfg: Config, w: World, c: Call, fate: Fate)
    requires !c.Finished?
    ensures RunAlone(cfg, w, c, fate) == RunAlone(cfg, Effect(cfg, w, c, fate(c)), Next(cfg, w, c, fate(c)), fate)
  {
  }

  lemma {:induction false} TapStretch(cfg: Config, w: World, user: string, ip: string, tap: string, k: nat, fate: Fate)
    requires k < TAP_COMMANDS && forall j :: 0 <= j < k ==> fate(TapCommand(user, ip, tap, j))
    ensures RunAlone(cfg, w, TapCommand(user, ip, tap, 0), fate) ==
            RunAlone(cfg, if k > 0 then w.(taps := w.taps + {tap}) else w, TapCommand(user, ip, tap, k), fate)
  {
    if k > 0 {
      TapStretch(cfg, w, user, ip, tap, k - 1, fate);
      var w' := if k - 1 > 0 then w.(taps := w.taps + {tap}) else w;
      Unfold(cfg, w', TapCommand(user, ip, tap, k - 1), fate);
    }
  }

  lemma {:induction false} SetupStretch(cfg: Config, w: World, user: string, ip: string, tap: string, k: nat, fate: Fate)
    requires k < RULES && forall j :: 0 <= j < k ==> fate(AddRule(user, ip, tap, j))
    ensures RunAlone(cfg, w, AddRule(user, ip, tap, 0), fate) ==
            RunAlone(cfg, w.(chain := w.chain + RuleSpan(cfg.gateway, ip, 0, k)), AddRule(user, ip, tap, k), fate)
  {
    if k == 0 {
      assert w.chain + RuleSpan(cfg.gateway, ip, 0, 0) == w.chain;
    } else {
      SetupStretch(cfg, w, user, ip, tap, k - 1, fate);
      var w' := w.(chain := w.chain + RuleSpan(cfg.gateway, ip, 0, k - 1));
      Unfold(cfg, w', AddRule(user, ip, tap, k - 1), fate);
      SpanGrows(cfg.gateway, ip, 0, k - 1);
      assert w'.chain + [IsolationRule(cfg.gateway, ip, k - 1)] == w.chain + RuleSpan(cfg.gateway, ip, 0, k);
    }
  }

  /** The fate of the five deletions of one cleanup. */
  function CleanupFate(user: string, ip: string, tap: string, exit: Exit, fate: Fate): nat -> bool
  {
    (k: nat) => fate(DeleteRule(user, ip, tap, k, exit))
  }

  /** The rest of a call that gives back tap and ip, from deletion step on. */
  lemma {:induction false} CleanupStretch(cfg: Config, w: World, user: string, ip: string, tap: string, step: nat,
                                          exit: Exit, fate: Fate)
    requires step < RULES
    ensures var ok := CleanupFate(user, ip, tap, exit, fate);
            RunAlone(cfg, w, DeleteRule(user, ip, tap, step, exit), fate) ==
            RunAlone(cfg, w.(chain := Cleaned(cfg.gateway, w.chain, ip, step, ok)), DeleteTap(user, ip, tap, exit), fate)
    decreases RULES - step
  {
    var ok := CleanupFate(user, ip, tap, exit, fate);
    DeleteRuleRuns(cfg, w, user, ip, tap, step, exit, fate);
    var chain := if ok(step) then DeleteFirst(w.chain, IsolationRule(cfg.gateway, ip, step)) else w.chain;
    CleanedStep(cfg.gateway, w.chain, ip, step, ok);
    if step + 1 < RULES {
      CleanupStretch(cfg, w.(chain := chain), user, ip, tap, step + 1, exit, fate);
    }
  }

  lemma DeleteRuleRuns(cfg: Config, w: World, user: string, ip: string, tap: string, step: nat, exit: Exit, fate: Fate)
    requires step < RULES
    ensures var c := DeleteRule(user, ip, tap, step, exit);
            RunAlone(cfg, w, c, fate) ==
            RunAlone(cfg, if fate(c) then w.(chain := DeleteFirst(w.chain, IsolationRule(cfg.gateway, ip, step))) else w,
                     if step + 1 < RULES then DeleteRule(user, ip, tap, step + 1, exit) else DeleteTap(user, ip, tap, exit),
                     fate)
  {
    Unfold(cfg, w, DeleteRule(user, ip, tap, step, exit), fate);
  }

  /** The world after the rules, the device and the address of a VM were given back. */
  function GivenBack(cfg: Config, w: World, user: string, ip: string, tap: string, exit: Exit, fate: Fate): World
  {
    w.(chain := Cleaned(cfg.gateway, w.chain, ip, 0, CleanupFate(user, ip, tap, exit, fate)),
       taps := if fate(DeleteTap(user, ip, tap, exit)) then w.taps - {tap} else w.taps,
       leases := w.leases - {ip})
  }

  function AfterExit(user: string, exit: Exit): Call
  {
    match exit
    case CreateFailed(info) => SaveError(user, info)
    case AfterStop(destroying) => LoadRecord(user, destroying)
  }

  lemma GivingBackRuns(cfg: Config, w: World, user: string, ip: string, tap: string, exit: Exit, fate: Fate)
    ensures RunAlone(cfg, w, DeleteRule(user, ip, tap, 0, exit), fate) ==
            RunAlone(cfg, GivenBack(cfg, w, user, ip, tap, exit, fate), AfterExit(user, exit), fate)
  {
    CleanupStretch(cfg, w, user, ip, tap, 0, exit, fate);
    var w1 := w.(chain := Cleaned(cfg.gateway, w.chain, ip, 0, CleanupFate(user, ip, tap, exit, fate)));
    var w2 := Effect(cfg, w1, DeleteTap(user, ip, tap, exit), fate(DeleteTap(user, ip, tap, exit)));
    Unfold(cfg, w1, DeleteTap(user, ip, tap, exit), fate);
    Unfold(cfg, w2, ReleaseAddress(user, ip, exit), fate);
  }

  lemma TakeRuns(cfg: Config, w: World, user: string, destroying: bool, fate: Fate)
    ensures RunAlone(cfg, w, TakeInstance(user, destroying), fate) ==
            if user in w.instances then
              RunAlone(cfg, w.(instances := w.instances - {user}),
                       KillVm(user, w.instances[user].ip, w.instances[user].tap, destroying), fate)
            else RunAlone(cfg, w, if destroying then CleanStorage(user) else Finished(user, NotRunning), fate)
  {
    Unfold(cfg, w, TakeInstance(user, destroying), fate);
    assert user !in w.instances ==> w.instances - {user} == w.instances;
  }

  lemma KillRuns(cfg: Config, w: World, user: string, i: Instance, destroying: bool, fate: Fate)
    ensures RunAlone(cfg, w, KillVm(user, i.ip, i.tap, destroying), fate) ==
            RunAlone(cfg, GivenBack(cfg, w.(running := w.running - {i}), user, i.ip, i.tap, AfterStop(destroying), fate),
                     LoadRecord(user, destroying), fate)
  {
    Unfold(cfg, w, KillVm(user, i.ip, i.tap, destroying), fate);
    GivingBackRuns(cfg, w.(running := w.running - {i}), user, i.ip, i.tap, AfterStop(destroying), fate);
  }

  lemma TapMade(cfg: Config, w: World, user: string, ip: string, tap: string, fate: Fate)
    requires forall j :: 0 <= j < TAP_COMMANDS ==> fate(TapCommand(user, ip, tap, j))
    ensures RunAlone(cfg, w, TapCommand(user, ip, tap, 0), fate) ==
            RunAlone(cfg, w.(taps := w.taps + {tap}), AddRule(user, ip, tap, 0), fate)
  {
    TapStretch(cfg, w, user, ip, tap, TAP_COMMANDS - 1, fate);
    Unfold(cfg, w.(taps := w.taps + {tap}), TapCommand(user, ip, tap, TAP_COMMANDS - 1), fate);
  }

  lemma TapUndone(cfg: Config, w: World, user: string, ip: string, tap: string, failed: nat, fate: Fate)
    requires failed < TAP_COMMANDS && forall j :: 0 <= j < failed ==> fate(TapCommand(user, ip, tap, j))
    requires !fate(TapCommand(user, ip, tap, failed))
    ensures var made := if failed > 0 then w.taps + {tap} else w.taps;
            RunAlone(cfg, w, TapCommand(user, ip, tap, 0), fate) ==
            RunAlone(cfg, w.(taps := if fate(UndoTap(user, ip, tap, failed)) then made - {tap} else made),
                     ReleaseAddress(user, ip, CreateFailed(Record(Errored, ip, ""))), fate)
  {
    TapStretch(cfg, w, user, ip, tap, failed, fate);
    var w' := if failed > 0 then w.(taps := w.taps + {tap}) else w;
    Unfold(cfg, w', TapCommand(user, ip, tap, failed), fate);
    Unfold(cfg, w', UndoTap(user, ip, tap, failed), fate);
  }

  /** Where CreateTapDevice leaves a create, given the number of its first failing command. */
  lemma TapOutcome(cfg: Config, w: World, user: string, ip: string, tap: string, failed: nat, fate: Fate)
    requires tap == TapName(w.nextIdx)
    requires failed <= TAP_COMMANDS && forall j :: 0 <= j < failed ==> fate(TapCommand(user, ip, tap, j))
    requires failed < TAP_COMMANDS ==> !fate(TapCommand(user, ip, tap, failed))
    ensures var made := if failed > 0 then w.taps + {tap} else w.taps;
            var w' := w.(nextIdx := w.nextIdx + 1);
            RunAlone(cfg, w, TakeTapIndex(user, ip), fate) ==
            if failed == TAP_COMMANDS then RunAlone(cfg, w'.(taps := made), AddRule(user, ip, tap, 0), fate)
            else RunAlone(cfg, w'.(taps := if fate(UndoTap(user, ip, tap, failed)) then made - {tap} else made),
                          ReleaseAddress(user, ip, CreateFailed(Record(Errored, ip, ""))), fate)
  {
    Unfold(cfg, w, TakeTapIndex(user, ip), fate);
    if failed == TAP_COMMANDS {
      TapMade(cfg, w.(nextIdx := w.nextIdx + 1), user, ip, tap, fate);
    } else {
      TapUndone(cfg, w.(nextIdx := w.nextIdx + 1), user, ip, tap, failed, fate);
    }
  }

  /** Where SetupVMIsolation, and the deletion of the device when it fails, leave a create. */
  lemma SetupOutcome(cfg: Config, w: World, user: string, ip: string, tap: string, failed: nat, fate: Fate)
    requires failed <= RULES && forall j :: 0 <= j < failed ==> fate(AddRule(user, ip, tap, j))
    requires failed < RULES ==> !fate(AddRule(user, ip, tap, failed))
    ensures var exit := CreateFailed(Record(Errored, ip, tap));
            var w' := w.(chain := w.chain + RuleSpan(cfg.gateway, ip, 0, failed));
            RunAlone(cfg, w, AddRule(user, ip, tap, 0), fate) ==
            if failed == RULES then RunAlone(cfg, w', Launch(user, ip, tap), fate)
            else RunAlone(cfg, w'.(taps := if fate(DeleteTap(user, ip, tap, exit)) then w.taps - {tap} else w.taps),
                          ReleaseAddress(user, ip, exit), fate)
  {
    var k := if failed == RULES then failed - 1 else failed;
    SetupStretch(cfg, w, user, ip, tap, k, fate);
    var w' := w.(chain := w.chain + RuleSpan(cfg.gateway, ip, 0, k));
    Unfold(cfg, w', AddRule(user, ip, tap, k), fate);
    if failed == RULES {
      SpanGrows(cfg.gateway, ip, 0, k);
      assert w'.chain + [IsolationRule(cfg.gateway, ip, k)] == w.chain + RuleSpan(cfg.gateway, ip, 0, failed);
    } else {
      Unfold(cfg, w', DeleteTap(user, ip, tap, CreateFailed(Record(Errored, ip, tap))), fate);
    }
  }
}

/** How a stop and a destroy advanced alone end, for every pattern of failures. */
module StopOutcomes {
  import opened Protocol
  import opened Lifecycle
  import opened LoneRuns

  // ---------- stop ----------

  /** The commands that bring the user's record to stopped. */
  predicate MarksStopped(w: World, user: string, destroying: bool, fate: Fate)
  {
    && user in w.records && fate(LoadRecord(user, destroying))
    && fate(SaveStopped(user, w.records[user].(status := Stopped), destroying))
  }

  lemma RecordRuns(cfg: Config, w: World, user: string, destroying: bool, fate: Fate)
    ensures RunAlone(cfg, w, LoadRecord(user, destroying), fate) ==
            RunAlone(cfg, if MarksStopped(w, user, destroying, fate)
                          then w.(records := w.records[user := w.records[user].(status := Stopped)]) else w,
                     AfterStopping(user, destroying), fate)
  {
    Unfold(cfg, w, LoadRecord(user, destroying), fate);
    if fate(LoadRecord(user, destroying)) && user in w.records {
      Unfold(cfg, w, SaveStopped(user, w.records[user].(status := Stopped), destroying), fate);
    }
  }

  function StoppedRecords(w: World, user: string, destroying: bool, fate: Fate): map<string, Record>
  {
    if MarksStopped(w, user, destroying, fate) then w.records[user := w.records[user].(status := Stopped)] else w.records
  }

  /** What a stop of a registered user takes from w: w' has the registration, process and address no more,
      the device and each rule only if deleting it fails. */
  ghost predicate GaveBack(cfg: Config, w: World, w': World, user: string, destroying: bool, fate: Fate)
    requires user in w.instances
  {
    var i, exit := w.instances[user], AfterStop(destroying);
    && w'.instances == w.instances - {user} && w'.running == w.running - {i} && w'.leases == w.leases - {i.ip}
    && w'.taps == (if fate(DeleteTap(user, i.ip, i.tap, exit)) then w.taps - {i.tap} else w.taps)
    && w'.chain == Cleaned(cfg.gateway, w.chain, i.ip, 0, CleanupFate(user, i.ip, i.tap, exit, fate))
    && w'.nextIdx == w.nextIdx
  }

  ghost predicate StoppedFrom(cfg: Config, w: World, w': World, user: string, destroying: bool, fate: Fate)
    requires user in w.instances
  {
    && GaveBack(cfg, w, w', user, destroying, fate)
    && w'.records == StoppedRecords(w, user, destroying, fate) && w'.storage == w.storage
  }

  lemma PartsAreAStop(cfg: Config, w: World, w': World, user: string, destroying: bool, fate: Fate)
    requires user in w.instances
    requires var i := w.instances[user];
             var w0 := w.(instances := w.instances - {user}, running := w.running - {i});
             w' == GivenBack(cfg, w0, user, i.ip, i.tap, AfterStop(destroying), fate).(
                   records := StoppedRecords(w, user, destroying, fate))
    ensures StoppedFrom(cfg, w, w', user, destroying, fate)
  {
  }

  lemma StopReaches(cfg: Config, w: World, user: string, destroying: bool, fate: Fate) returns (w': World)
    requires user in w.instances
    ensures StoppedFrom(cfg, w, w', user, destroying, fate)
    ensures RunAlone(cfg, w, TakeInstance(user, destroying), fate) == RunAlone(cfg, w', AfterStopping(user, destroying), fate)
  {
    var i := w.instances[user];
    var w0 := w.(instances := w.instances - {user});
    TakeRuns(cfg, w, user, destroying, fate);
    KillRuns(cfg, w0, user, i, destroying, fate);
    var v := GivenBack(cfg, w0.(running := w0.running - {i}), user, i.ip, i.tap, AfterStop(destroying), fate);
    RecordRuns(cfg, v, user, destroying, fate);
    w' := v.(records := StoppedRecords(w, user, destroying, fate));
  }

  /** How every stop ends: it succeeds exactly when the user is registered, and otherwise does nothing. */
  lemma StopEnds(cfg: Config, w: World, user: string, fate: Fate)
    ensures var (w', d) := RunAlone(cfg, w, TakeInstance(user, false), fate);
            if user in w.instances then d == Finished(user, StopDone) && StoppedFrom(cfg, w, w', user, false, fate)
            else d == Finished(user, NotRunning) && w' == w
  {
    if user in w.instances {
      var w' := StopReaches(cfg, w, user, false, fate);
    } else {
      TakeRuns(cfg, w, user, false, fate);
    }
  }

  // ---------- destroy ----------

  /** The records after a destroy. */
  function RecordsAfterDestroy(w: World, user: string, fate: Fate): map<string, Record>
  {
    var records := if user in w.instances then StoppedRecords(w, user, true, fate) else w.records;
    if fate(CleanStorage(user)) && fate(DeleteRecord(user)) then records - {user} else records
  }

  /** What a destroy takes from w: a running VM with all it holds, the storage, and then the record. */
  ghost predicate DestroyedFrom(cfg: Config, w: World, w': World, user: string, fate: Fate)
  {
    && (if user in w.instances then GaveBack(cfg, w, w', user, true, fate)
        else
          && w'.instances == w.instances && w'.running == w.running && w'.leases == w.leases && w'.taps == w.taps
          && w'.chain == w.chain && w'.nextIdx == w.nextIdx)
    && w'.storage == (if fate(CleanStorage(user)) then w.storage - {user} else w.storage)
    && w'.records == RecordsAfterDestroy(w, user, fate)
  }

  /** v after the storage and the record were deleted, as far as that goes. */
  function Erased(v: World, user: string, fate: Fate): World
  {
    if !fate(CleanStorage(user)) then v
    else
      v.(storage := v.storage - {user}, records := if fate(DeleteRecord(user)) then v.records - {user} else v.records)
  }

  lemma StorageCleaningRuns(cfg: Config, w: World, user: string, fate: Fate)
    ensures var (w', d) := RunAlone(cfg, w, CleanStorage(user), fate);
            && d == Finished(user, if fate(CleanStorage(user)) then Destroyed else StorageLeft)
            && w' == Erased(w, user, fate)
  {
    Unfold(cfg, w, CleanStorage(user), fate);
    if fate(CleanStorage(user)) {
      Unfold(cfg, w.(storage := w.storage - {user}), DeleteRecord(user), fate);
    }
  }

  /** How every destroy ends, from any state and for every pattern of failures: it succeeds exactly when
      the storage can be removed. Then the user has no storage, and no record if that can be deleted; else
      the storage is untouched and the record stays. */
  lemma DestroyEnds(cfg: Config, w: World, user: string, fate: Fate)
    ensures var (w', d) := RunAlone(cfg, w, CheckRunning(user), fate);
            && d == Finished(user, if fate(CleanStorage(user)) then Destroyed else StorageLeft)
            && DestroyedFrom(cfg, w, w', user, fate)
            && (fate(CleanStorage(user)) ==> user !in w'.storage)
            && (fate(CleanStorage(user)) && fate(DeleteRecord(user)) ==> user !in w'.records)
            && user !in w'.instances
  {
    var v := StoppingRuns(cfg, w, user, fate);
    StorageCleaningRuns(cfg, v, user, fate);
    CleaningDestroys(cfg, w, v, user, fate);
  }

  lemma StoppingRuns(cfg: Config, w: World, user: string, fate: Fate) returns (v: World)
    ensures if user in w.instances then StoppedFrom(cfg, w, v, user, true, fate) else v == w
    ensures RunAlone(cfg, w, CheckRunning(user), fate) == RunAlone(cfg, v, CleanStorage(user), fate)
  {
    Unfold(cfg, w, CheckRunning(user), fate);
    v := w;
    if user in w.instances {
      v := StopReaches(cfg, w, user, true, fate);
    }
  }

  lemma CleaningDestroys(cfg: Config, w: World, v: World, user: string, fate: Fate)
    requires if user in w.instances then StoppedFrom(cfg, w, v, user, true, fate) else v == w
    ensures DestroyedFrom(cfg, w, Erased(v, user, fate), user, fate) && user !in v.instances
  {
  }

  /** A destroy of a user with a VM, every command succeeding, leaves nothing of either. */
  lemma DestroySucceeds(cfg: Config, w: World, user: string, fate: Fate)
    requires (forall c: Call :: fate(c)) && user in w.instances
    ensures var (w', d) := RunAlone(cfg, w, CheckRunning(user), fate);
            && d == Finished(user, Destroyed)
            && user !in w'.instances && user !in w'.records && user !in w'.storage
            && w.instances[user] !in w'.running && w.instances[user].ip !in w'.leases && w.instances[user].tap !in w'.taps
  {
    DestroyEnds(cfg, w, user, fate);
    assert fate(DeleteTap(user, w.instances[user].ip, w.instances[user].tap, AfterStop(true)));
  }
}

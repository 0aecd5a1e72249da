/** The orchestrator's two classes, run one operation at a time: NetworkManager over the host's chain
    and devices, and Manager on top of it. Each operation of Manager does exactly what the protocol's
    call does when it is advanced alone. */
module Orchestrator {
  import opened Numerals
  import opened Wrappers
  import opened AddressPool
  import opened Firewall
  import opened Protocol
  import opened Lifecycle
  import opened LoneRuns
  import opened CreateOutcomes
  import opened StopOutcomes

  class NetworkManager {
    const net: Subnet
    const gateway: string
    var leases: map<string, string>  // address to user
    var nextIdx: nat                 // next TAP index
    var chain: seq<Rule>             // the host's FORWARD chain
    var taps: set<string>            // the host's TAP devices

    ghost predicate Valid()
      reads this`leases
    {
      ValidSubnet(net) && forall ip :: ip in leases ==> ip in PoolAddresses(net)
    }

    /** ip and ones are the address and prefix length parsed from VM_SUBNET. */
    constructor (ip: nat, ones: nat, gateway: string)
      requires ip < TWO_32 && ones <= 32
      ensures Valid() && InSubnet(net, ip) && this.net.ones == ones && this.gateway == gateway
      ensures leases == map[] && nextIdx == 1 && chain == [] && taps == {}
    {
      net := Masked(ip, ones);
      this.gateway := gateway;
      leases, nextIdx, chain, taps := map[], 1, [], {};
      MaskedIsValid(ip, ones);
    }

    /** Leases the free address of lowest offset; fails exactly when as many addresses are leased as
        the pool has. Seen as a set of offsets, the lease map gains exactly that offset. */
    method AllocateIP(user: string) returns (r: Option<string>)
      requires Valid()
      modifies this`leases
      ensures Valid()
      ensures r == FirstFree(PoolAddresses(net), 0, old(leases.Keys))
      ensures leases == if r.Some? then old(leases)[r.value := user] else old(leases)
      ensures r.None? <==> |old(leases)| == PoolSize(net)
      ensures r.Some? ==>
                exists i :: TakesLowest(PoolAddresses(net), old(leases.Keys), r.value, i) &&
                            ReadAddress(r.value) == Base(net) + i + 2
    {
      ghost var pool, used := PoolAddresses(net), leases.Keys;
      PoolIsDistinct(net);
      ExhaustedIffCountFull(pool, used);
      assert |leases| == |used|;
      var offset := 2;
      while offset <= MaxHosts(net)
        invariant 2 <= offset && offset - 2 <= |pool|
        invariant leases == old(leases) && FirstFree(pool, offset - 2, used) == FirstFree(pool, 0, used)
      {
        var ip := OffsetToIP(net, offset);
        assert pool[offset - 2] == ip;
        if ip !in leases {
          leases := leases[ip := user];
          ghost var i := AllocationTakesLowest(pool, used);
          PoolAddressIsHost(net, i);
          return Some(ip);
        }
        offset := offset + 1;
      }
      return None;
    }

    /** Any text may be released; as a set of offsets the lease map loses the offset it names, if any. */
    method ReleaseIP(ip: string)
      requires Valid()
      modifies this`leases
      ensures Valid()
      ensures leases == old(leases) - {ip}
      ensures forall i: nat :: i < PoolSize(net) && PoolAddresses(net)[i] == ip ==>
                                 Taken(PoolAddresses(net), leases.Keys) == Taken(PoolAddresses(net), old(leases.Keys)) - {i}
    {
      leases := leases - {ip};
      PoolIsDistinct(net);
      forall i: nat | i < PoolSize(net) && PoolAddresses(net)[i] == ip
        ensures Taken(PoolAddresses(net), leases.Keys) == Taken(PoolAddresses(net), old(leases.Keys)) - {i}
      {
        InsertByTextIsInsertByOffset(PoolAddresses(net), old(leases.Keys), i);
        assert leases.Keys == old(leases.Keys) - {ip};
      }
    }

    /** ok(tap, k): whether command k for tap succeeds; undo(tap, k): whether the deletion after a
        failed command k does. failed is that k, or the number of commands. */
    method CreateTapDevice(ok: (string, nat) -> bool, undo: (string, nat) -> bool)
      returns (r: Option<string>, ghost failed: nat)
      modifies this`nextIdx, this`taps
      ensures nextIdx == old(nextIdx) + 1
      ensures failed <= TAP_COMMANDS
      ensures var tap := TapName(old(nextIdx));
              && (forall j :: 0 <= j < failed ==> ok(tap, j))
              && (if failed == TAP_COMMANDS then r == Some(tap) && taps == old(taps) + {tap}
                  else
                    && r == None && !ok(tap, failed)
                    && var made := if failed > 0 then old(taps) + {tap} else old(taps);
                       taps == if undo(tap, failed) then made - {tap} else made)
    {
      var tap := TapName(nextIdx);
      nextIdx := nextIdx + 1;
      var k := 0;
      while k < TAP_COMMANDS
        invariant nextIdx == old(nextIdx) + 1 && k <= TAP_COMMANDS && forall j :: 0 <= j < k ==> ok(tap, j)
        invariant taps == if k > 0 then old(taps) + {tap} else old(taps)
      {
        if !ok(tap, k) {
          DestroyTapDevice(tap, undo(tap, k));
          return None, k;
        }
        if k == 0 {
          taps := taps + {tap};
        }
        k := k + 1;
      }
      return Some(tap), k;
    }

    method DestroyTapDevice(tap: string, ok: bool)
      modifies this`taps
      ensures taps == if ok then old(taps) - {tap} else old(taps)
    {
      if ok {
        taps := taps - {tap};
      }
    }

    /** Appends the five rules in order and stops at the first failure, leaving what it added. */
    method SetupVMIsolation(ip: string, ok: nat -> bool) returns (success: bool, ghost failed: nat)
      modifies this`chain
      ensures failed <= RULES && (success <==> failed == RULES) && (!success ==> !ok(failed))
      ensures forall j :: 0 <= j < failed ==> ok(j)
      ensures chain == old(chain) + RuleSpan(gateway, ip, 0, failed)
      ensures success ==>
                chain == old(chain) +
                         [Rule(Only(ip), Only(gateway), false, Accept), Rule(Only(ip), Outside, false, Accept),
                          Rule(Any, Only(ip), true, Accept), Rule(Only(gateway), Only(ip), false, Accept),
                          Rule(Only(ip), Within, false, Drop)]
    {
      FiveRules(gateway, ip);
      var k := 0;
      while k < RULES
        invariant k <= RULES && forall j :: 0 <= j < k ==> ok(j)
        invariant chain == old(chain) + RuleSpan(gateway, ip, 0, k)
      {
        if !ok(k) {
          return false, k;
        }
        SpanGrows(gateway, ip, 0, k);
        chain := chain + [IsolationRule(gateway, ip, k)];
        k := k + 1;
      }
      return true, k;
    }

    method CleanupVMIsolation(ip: string, ok: nat -> bool)
      modifies this`chain
      ensures chain == Cleaned(gateway, old(chain), ip, 0, ok)
    {
      var k := 0;
      while k < RULES
        invariant k <= RULES
        invariant Cleaned(gateway, chain, ip, k, ok) == Cleaned(gateway, old(chain), ip, 0, ok)
      {
        if ok(k) {
          chain := DeleteFirst(chain, IsolationRule(gateway, ip, k));
        }
        k := k + 1;
      }
    }
  }

  class Manager {
    const network: NetworkManager
    var instances: map<string, Instance>
    var running: set<Instance>        // the launcher's processes
    var records: map<string, Record>  // Redis, key vm:binding:<user>
    var storage: set<string>          // users whose directory may exist

    constructor (ip: nat, ones: nat, gateway: string)
      requires ip < TWO_32 && ones <= 32
      ensures network.Valid() && fresh(network) && network.gateway == gateway
      ensures Snapshot() == START.world
    {
      network := new NetworkManager(ip, ones, gateway);
      instances, running, records, storage := map[], {}, map[], {};
    }

    ghost function Setting(): Config
      requires network.net.ones <= 32
    {
      Config(PoolAddresses(network.net), network.gateway)
    }

    /** The state the protocol sees. */
    ghost function Snapshot(): World
      reads this, network
    {
      World(network.leases, network.nextIdx, network.taps, network.chain, instances, running, records, storage)
    }

    method Save(user: string, info: Record, ok: bool)
      modifies this`records
      ensures records == if ok then old(records)[user := info] else old(records)
    {
      if ok {
        records := records[user := info];
      }
    }

    /** StopVM: exactly the protocol's stop, run alone. It succeeds exactly when the user is registered, and
        otherwise changes nothing. */
    method StopVM(user: string, destroying: bool, fate: Fate) returns (stopped: bool)
      requires network.Valid()
      modifies this, network
      ensures network.Valid()
      ensures stopped <==> user in old(instances)
      ensures if stopped then StoppedFrom(Setting(), old(Snapshot()), Snapshot(), user, destroying, fate)
              else Snapshot() == old(Snapshot())
      ensures RunAlone(Setting(), old(Snapshot()), TakeInstance(user, destroying), fate) ==
              RunAlone(Setting(), Snapshot(),
                       if destroying then CleanStorage(user) else Finished(user, if stopped then StopDone else NotRunning),
                       fate)
    {
      TakeRuns(Setting(), Snapshot(), user, destroying, fate);
      if user !in instances {
        return false;
      }
      ghost var w := Snapshot();
      var i := instances[user];
      instances := instances - {user};
      KillAndGiveBack(user, i, destroying, fate);
      MarkStopped(user, destroying, fate);
      PartsAreAStop(Setting(), w, Snapshot(), user, destroying, fate);
      return true;
    }

    method KillAndGiveBack(user: string, i: Instance, destroying: bool, fate: Fate)
      requires network.Valid()
      modifies this`running, network
      ensures network.Valid()
      ensures Snapshot() == GivenBack(Setting(), old(Snapshot()).(running := old(running) - {i}), user, i.ip, i.tap,
                                      AfterStop(destroying), fate)
      ensures RunAlone(Setting(), old(Snapshot()), KillVm(user, i.ip, i.tap, destroying), fate) ==
              RunAlone(Setting(), Snapshot(), LoadRecord(user, destroying), fate)
    {
      KillRuns(Setting(), Snapshot(), user, i, destroying, fate);
      running := running - {i};
      GiveBack(user, i.ip, i.tap, AfterStop(destroying), fate);
    }

    /** The rules, the device and the address, in that order, as on a stop and on a failed launch. */
    method GiveBack(user: string, ip: string, tap: string, exit: Exit, fate: Fate)
      requires network.Valid()
      modifies network
      ensures network.Valid()
      ensures Snapshot() == GivenBack(Setting(), old(Snapshot()), user, ip, tap, exit, fate)
    {
      network.CleanupVMIsolation(ip, CleanupFate(user, ip, tap, exit, fate));
      network.DestroyTapDevice(tap, fate(DeleteTap(user, ip, tap, exit)));
      network.ReleaseIP(ip);
    }

    /** The record's part of a stop. */
    method MarkStopped(user: string, destroying: bool, fate: Fate)
      requires network.net.ones <= 32
      modifies this`records
      ensures records == StoppedRecords(old(Snapshot()), user, destroying, fate)
      ensures RunAlone(Setting(), old(Snapshot()), LoadRecord(user, destroying), fate) ==
              RunAlone(Setting(), Snapshot(), AfterStopping(user, destroying), fate)
    {
      Unfold(Setting(), Snapshot(), LoadRecord(user, destroying), fate);
      if fate(LoadRecord(user, destroying)) && user in records {
        var info := records[user].(status := Stopped);
        Unfold(Setting(), Snapshot(), SaveStopped(user, info, destroying), fate);
        Save(user, info, fate(SaveStopped(user, info, destroying)));
      }
    }

    /** DestroyVM: exactly the protocol's destroy, run alone. It succeeds exactly when the storage can be
        removed; then the record goes too, if Redis deletes it. */
    method DestroyVM(user: string, fate: Fate) returns (outcome: Outcome)
      requires network.Valid()
      modifies this, network
      ensures network.Valid()
      ensures RunAlone(Setting(), old(Snapshot()), CheckRunning(user), fate) == (Snapshot(), Finished(user, outcome))
      ensures outcome == if fate(CleanStorage(user)) then Destroyed else StorageLeft
      ensures storage == if fate(CleanStorage(user)) then old(storage) - {user} else old(storage)
      ensures records == RecordsAfterDestroy(old(Snapshot()), user, fate)
      ensures DestroyedFrom(Setting(), old(Snapshot()), Snapshot(), user, fate) && user !in instances
      ensures outcome == Destroyed && fate(DeleteRecord(user)) ==> user !in records
    {
      DestroyEnds(Setting(), Snapshot(), user, fate);
      StopIfRunning(user, fate);
      outcome := Erase(user, fate);
    }

    method StopIfRunning(user: string, fate: Fate)
      requires network.Valid()
      modifies this, network
      ensures network.Valid()
      ensures RunAlone(Setting(), old(Snapshot()), CheckRunning(user), fate) ==
              RunAlone(Setting(), Snapshot(), CleanStorage(user), fate)
    {
      Unfold(Setting(), Snapshot(), CheckRunning(user), fate);
      if user in instances {
        var stopped := StopVM(user, true, fate);
      }
    }

    /** The storage and the record's part of a destroy. */
    method Erase(user: string, fate: Fate) returns (outcome: Outcome)
      requires network.net.ones <= 32
      modifies this`storage, this`records
      ensures RunAlone(Setting(), old(Snapshot()), CleanStorage(user), fate) == (Snapshot(), Finished(user, outcome))
    {
      Unfold(Setting(), Snapshot(), CleanStorage(user), fate);
      if !fate(CleanStorage(user)) {
        return StorageLeft;
      }
      storage := storage - {user};
      Unfold(Setting(), Snapshot(), DeleteRecord(user), fate);
      if fate(DeleteRecord(user)) {
        records := records - {user};
      }
      return Destroyed;
    }

    /** setVMError. */
    method SetVMError(user: string, info: Record, fate: Fate)
      requires network.net.ones <= 32
      modifies this`records
      ensures RunAlone(Setting(), old(Snapshot()), SaveError(user, info), fate) == (Snapshot(), Finished(user, Failed))
    {
      Unfold(Setting(), Snapshot(), SaveError(user, info), fate);
      Save(user, info, fate(SaveError(user, info)));
    }

    /** ReleaseIP and setVMError, as on every failure of a create past allocation. */
    method Abandon(user: string, ip: string, info: Record, fate: Fate)
      requires network.Valid()
      modifies this`records, network
      ensures network.Valid()
      ensures RunAlone(Setting(), old(Snapshot()), ReleaseAddress(user, ip, CreateFailed(info)), fate) ==
              (Snapshot(), Finished(user, Failed))
    {
      Unfold(Setting(), Snapshot(), ReleaseAddress(user, ip, CreateFailed(info)), fate);
      network.ReleaseIP(ip);
      SetVMError(user, info, fate);
    }

    /** Step 1 of a create: the address. */
    method Lease(user: string, fate: Fate) returns (leased: Option<string>)
      requires network.Valid()
      modifies network`leases
      ensures network.Valid()
      ensures RunAlone(Setting(), old(Snapshot()), Allocate(user), fate) ==
              RunAlone(Setting(), Snapshot(),
                       if leased.Some? then CopyRootfs(user, leased.value) else SaveError(user, Record(Errored, "", "")),
                       fate)
    {
      Unfold(Setting(), Snapshot(), Allocate(user), fate);
      leased := network.AllocateIP(user);
    }

    /** Step 2: the root file system and the data volume. */
    method Provision(user: string, ip: string, fate: Fate) returns (success: bool)
      requires network.net.ones <= 32
      modifies this`storage
      ensures RunAlone(Setting(), old(Snapshot()), CopyRootfs(user, ip), fate) ==
              RunAlone(Setting(), Snapshot(),
                       if success then TakeTapIndex(user, ip)
                       else ReleaseAddress(user, ip, CreateFailed(Record(Errored, ip, ""))), fate)
    {
      Unfold(Setting(), Snapshot(), CopyRootfs(user, ip), fate);
      storage := storage + {user};
      if !fate(CopyRootfs(user, ip)) {
        return false;
      }
      Unfold(Setting(), Snapshot(), MakeData(user, ip), fate);
      storage := storage + {user};
      return fate(MakeData(user, ip));
    }

    /** Step 4: the TAP device. */
    method Attach(user: string, ip: string, fate: Fate) returns (created: Option<string>)
      requires network.net.ones <= 32
      modifies network`nextIdx, network`taps
      ensures RunAlone(Setting(), old(Snapshot()), TakeTapIndex(user, ip), fate) ==
              RunAlone(Setting(), Snapshot(),
                       if created.Some? then AddRule(user, ip, created.value, 0)
                       else ReleaseAddress(user, ip, CreateFailed(Record(Errored, ip, ""))), fate)
    {
      ghost var w, name := Snapshot(), TapName(network.nextIdx);
      var ok := (tap: string, k: nat) => fate(TapCommand(user, ip, tap, k));
      var undo := (tap: string, k: nat) => fate(UndoTap(user, ip, tap, k));
      ghost var failed;
      created, failed := network.CreateTapDevice(ok, undo);
      forall j: nat | j < failed
        ensures fate(TapCommand(user, ip, name, j))
      {
        assert ok(name, j);
      }
      TapOutcome(Setting(), w, user, ip, name, failed, fate);
    }

    /** Step 5: the isolation rules; the device goes when they fail. */
    method Isolate(user: string, ip: string, tap: string, fate: Fate) returns (success: bool)
      requires network.net.ones <= 32
      modifies network`chain, network`taps
      ensures RunAlone(Setting(), old(Snapshot()), AddRule(user, ip, tap, 0), fate) ==
              RunAlone(Setting(), Snapshot(),
                       if success then Launch(user, ip, tap)
                       else ReleaseAddress(user, ip, CreateFailed(Record(Errored, ip, tap))), fate)
    {
      ghost var w := Snapshot();
      var exit := CreateFailed(Record(Errored, ip, tap));
      var ok := (k: nat) => fate(AddRule(user, ip, tap, k));
      ghost var failed;
      success, failed := network.SetupVMIsolation(ip, ok);
      forall j: nat | j < failed
        ensures fate(AddRule(user, ip, tap, j))
      {
        assert ok(j);
      }
      SetupOutcome(Setting(), w, user, ip, tap, failed, fate);
      if !success {
        network.DestroyTapDevice(tap, fate(DeleteTap(user, ip, tap, exit)));
      }
    }

    /** Step 6: the process; everything is given back when it does not start. */
    method LaunchVm(user: string, ip: string, tap: string, fate: Fate) returns (success: bool)
      requires network.Valid()
      modifies this`running, network
      ensures network.Valid()
      ensures RunAlone(Setting(), old(Snapshot()), Launch(user, ip, tap), fate) ==
              RunAlone(Setting(), Snapshot(),
                       if success then Register(user, ip, tap) else SaveError(user, Record(Errored, ip, tap)), fate)
    {
      Unfold(Setting(), Snapshot(), Launch(user, ip, tap), fate);
      if fate(Launch(user, ip, tap)) {
        running := running + {Instance(ip, tap)};
        return true;
      }
      var exit := CreateFailed(Record(Errored, ip, tap));
      GivingBackRuns(Setting(), Snapshot(), user, ip, tap, exit, fate);
      GiveBack(user, ip, tap, exit, fate);
      return false;
    }

    /** Step 7: the registry and the final record. */
    method RegisterVm(user: string, ip: string, tap: string, fate: Fate)
      requires network.net.ones <= 32
      modifies this`instances, this`records
      ensures RunAlone(Setting(), old(Snapshot()), Register(user, ip, tap), fate) == (Snapshot(), Finished(user, Created))
    {
      Unfold(Setting(), Snapshot(), Register(user, ip, tap), fate);
      instances := instances[user := Instance(ip, tap)];
      Unfold(Setting(), Snapshot(), SaveRunning(user, ip, tap), fate);
      Save(user, Record(Running, ip, tap), fate(SaveRunning(user, ip, tap)));
    }

    /** The existence check and the initial record. */
    method BeginCreate(user: string, fate: Fate) returns (outcome: Option<Outcome>)
      requires network.net.ones <= 32
      modifies this`records
      ensures RunAlone(Setting(), old(Snapshot()), CheckExists(user), fate) ==
              RunAlone(Setting(), Snapshot(), if outcome.Some? then Finished(user, outcome.value) else Allocate(user), fate)
    {
      Unfold(Setting(), Snapshot(), CheckExists(user), fate);
      if user in instances {
        return Some(AlreadyRunning);
      }
      Unfold(Setting(), Snapshot(), SaveInitial(user), fate);
      Save(user, Record(Provisioning, "", ""), fate(SaveInitial(user)));
      return if fate(SaveInitial(user)) then None else Some(Failed);
    }

    /** CreateVM: exactly the protocol's create, run alone. It does nothing for a registered user; it
        gives the user a VM exactly when every command up to the launch succeeds; or it fails, gives back
        what it held and records an error. */
    method CreateVM(user: string, fate: Fate) returns (outcome: Outcome)
      requires network.Valid()
      modifies this, network
      ensures network.Valid()
      ensures RunAlone(Setting(), old(Snapshot()), CheckExists(user), fate) == (Snapshot(), Finished(user, outcome))
      ensures outcome == AlreadyRunning <==> user in old(instances)
      ensures outcome == Created <==> exists ip :: Launches(Setting(), old(Snapshot()), user, ip, fate)
      ensures outcome == AlreadyRunning ==> Snapshot() == old(Snapshot())
      ensures forall ip :: Launches(Setting(), old(Snapshot()), user, ip, fate) ==>
                             Snapshot() == WithVm(Setting(), old(Snapshot()), user, ip,
                                                  FinalRecord(old(Snapshot()), user, ip, fate))
      ensures outcome != AlreadyRunning && outcome != Created ==>
                && outcome == Failed && Undone(old(Snapshot()), Snapshot(), user)
                && TapsUndone(old(Snapshot()), Snapshot(), fate)
                && ErrorRecorded(Setting(), old(Snapshot()), Snapshot(), user, fate)
    {
      CreateEnds(Setting(), Snapshot(), user, fate);
      var early := BeginCreate(user, fate);
      if early.Some? {
        return early.value;
      }
      outcome := GoOnCreating(user, fate);
    }

    /** A create past its initial record. */
    method GoOnCreating(user: string, fate: Fate) returns (outcome: Outcome)
      requires network.Valid()
      modifies this, network
      ensures network.Valid()
      ensures RunAlone(Setting(), old(Snapshot()), Allocate(user), fate) == (Snapshot(), Finished(user, outcome))
    {
      var leased := Lease(user, fate);
      if leased.None? {
        SetVMError(user, Record(Errored, "", ""), fate);
        return Failed;
      }
      var ip := leased.value;
      var provisioned := Provision(user, ip, fate);
      if !provisioned {
        Abandon(user, ip, Record(Errored, ip, ""), fate);
        return Failed;
      }
      var created := Attach(user, ip, fate);
      if created.None? {
        Abandon(user, ip, Record(Errored, ip, ""), fate);
        return Failed;
      }
      var tap := created.value;
      var isolated := Isolate(user, ip, tap, fate);
      if !isolated {
        Abandon(user, ip, Record(Errored, ip, tap), fate);
        return Failed;
      }
      var launched := LaunchVm(user, ip, tap, fate);
      if !launched {
        SetVMError(user, Record(Errored, ip, tap), fate);
        return Failed;
      }
      RegisterVm(user, ip, tap, fate);
      return Created;
    }
  }
}

/** The orchestrator's resource protocol as a transition system. A call of CreateVM, StopVM or
    DestroyVM is a program counter with its local variables; every locked section, Redis command,
    iptables command, TAP command and process start or stop is one step, and calls interleave
    freely between steps. */
module Protocol {
  import opened Numerals
  import opened Wrappers
  import opened AddressPool
  import opened Firewall

  /** pool: the candidate addresses in the order AllocateIP tries them. */
  datatype Config = Config(pool: seq<string>, gateway: string)

  datatype Status = Provisioning | Running | Stopped | Errored

  /** The fields of models.VMInfo that the protocol reads back; "" is an unset string. */
  datatype Record = Record(status: Status, ip: string, tap: string)

  datatype Instance = Instance(ip: string, tap: string)

  /** Everything the calls share. leases: the map NetworkManager.allocated, address to user.
      storage: users whose directory may exist on disk. */
  datatype World = World(
    leases: map<string, string>,
    nextIdx: nat,
    taps: set<string>,
    chain: seq<Rule>,
    instances: map<string, Instance>,
    running: set<Instance>,
    records: map<string, Record>,
    storage: set<string>)

  /** Why resources are being given back, and so what follows. */
  datatype Exit = CreateFailed(info: Record) | AfterStop(destroying: bool)

  datatype Outcome = AlreadyRunning | Created | Failed | NotRunning | StopDone | Destroyed | StorageLeft

  const TAP_COMMANDS := 3

  datatype Call =
    // CreateVM
    | CheckExists(user: string)
    | SaveInitial(user: string)
    | Allocate(user: string)
    | CopyRootfs(user: string, ip: string)
    | MakeData(user: string, ip: string)
    | TakeTapIndex(user: string, ip: string)
    | TapCommand(user: string, ip: string, tap: string, step: nat)
    | UndoTap(user: string, ip: string, tap: string, step: nat)
    | AddRule(user: string, ip: string, tap: string, step: nat)
    | Launch(user: string, ip: string, tap: string)
    | Register(user: string, ip: string, tap: string)
    | SaveRunning(user: string, ip: string, tap: string)
    // giving back, on a failed launch or a stop
    | KillVm(user: string, ip: string, tap: string, destroying: bool)
    | DeleteRule(user: string, ip: string, tap: string, step: nat, exit: Exit)
    | DeleteTap(user: string, ip: string, tap: string, exit: Exit)
    | ReleaseAddress(user: string, ip: string, exit: Exit)
    | SaveError(user: string, info: Record)
    // StopVM and DestroyVM
    | TakeInstance(user: string, destroying: bool)
    | LoadRecord(user: string, destroying: bool)
    | SaveStopped(user: string, info: Record, destroying: bool)
    | CheckRunning(user: string)
    | CleanStorage(user: string)
    | DeleteRecord(user: string)
    | Finished(user: string, outcome: Outcome)

  /** What one step of call c does to the shared state. ok: whether the external command of this
      step succeeded; the locked sections and KillVm ignore it. */
  function Effect(cfg: Config, w: World, c: Call, ok: bool): World
  {
    match c
    case SaveInitial(user) => Save(w, ok, user, Record(Provisioning, "", ""))
    case Allocate(user) => (
      match FirstFree(cfg.pool, 0, w.leases.Keys)
      case None => w
      case Some(ip) => w.(leases := w.leases[ip := user]))
    case CopyRootfs(user, _) => w.(storage := w.storage + {user})
    case MakeData(user, _) => w.(storage := w.storage + {user})
    case TakeTapIndex(_, _) => w.(nextIdx := w.nextIdx + 1)
    case TapCommand(_, _, tap, step) => if ok && step == 0 then w.(taps := w.taps + {tap}) else w
    case UndoTap(_, _, tap, _) => if ok then w.(taps := w.taps - {tap}) else w
    case AddRule(_, ip, _, step) =>
      if ok then w.(chain := w.chain + [IsolationRule(cfg.gateway, ip, step)]) else w
    case Launch(_, ip, tap) => if ok then w.(running := w.running + {Instance(ip, tap)}) else w
    case Register(user, ip, tap) => w.(instances := w.instances[user := Instance(ip, tap)])
    case SaveRunning(user, ip, tap) => Save(w, ok, user, Record(Running, ip, tap))
    case KillVm(_, ip, tap, _) => w.(running := w.running - {Instance(ip, tap)})
    case DeleteRule(_, ip, _, step, _) =>
      if ok then w.(chain := DeleteFirst(w.chain, IsolationRule(cfg.gateway, ip, step))) else w
    case DeleteTap(_, _, tap, _) => if ok then w.(taps := w.taps - {tap}) else w
    case ReleaseAddress(_, ip, _) => w.(leases := w.leases - {ip})
    case SaveError(user, info) => Save(w, ok, user, info)
    case TakeInstance(user, _) => w.(instances := w.instances - {user})
    case SaveStopped(user, info, _) => Save(w, ok, user, info)
    case CleanStorage(user) => if ok then w.(storage := w.storage - {user}) else w
    case DeleteRecord(user) => if ok then w.(records := w.records - {user}) else w
    case _ => w
  }

  /** saveVMInfo: a Redis write that may fail. */
  function Save(w: World, ok: bool, user: string, info: Record): World
  {
    if ok then w.(records := w.records[user := info]) else w
  }

  /** Where the call goes from there. */
  function Next(cfg: Config, w: World, c: Call, ok: bool): Call
  {
    match c
    case CheckExists(user) => if user in w.instances then Finished(user, AlreadyRunning) else SaveInitial(user)
    case SaveInitial(user) => if ok then Allocate(user) else Finished(user, Failed)
    case Allocate(user) => (
      match FirstFree(cfg.pool, 0, w.leases.Keys)
      case None => SaveError(user, Record(Errored, "", ""))
      case Some(ip) => CopyRootfs(user, ip))
    case CopyRootfs(user, ip) =>
      if ok then MakeData(user, ip) else ReleaseAddress(user, ip, CreateFailed(Record(Errored, ip, "")))
    case MakeData(user, ip) =>
      if ok then TakeTapIndex(user, ip) else ReleaseAddress(user, ip, CreateFailed(Record(Errored, ip, "")))
    case TakeTapIndex(user, ip) => TapCommand(user, ip, TapName(w.nextIdx), 0)
    case TapCommand(user, ip, tap, step) =>
      if !ok then UndoTap(user, ip, tap, step)
      else if step + 1 < TAP_COMMANDS then TapCommand(user, ip, tap, step + 1)
      else AddRule(user, ip, tap, 0)
    case UndoTap(user, ip, _, _) => ReleaseAddress(user, ip, CreateFailed(Record(Errored, ip, "")))
    case AddRule(user, ip, tap, step) =>
      if !ok then DeleteTap(user, ip, tap, CreateFailed(Record(Errored, ip, tap)))
      else if step + 1 < RULES then AddRule(user, ip, tap, step + 1)
      else Launch(user, ip, tap)
    case Launch(user, ip, tap) =>
      if ok then Register(user, ip, tap) else DeleteRule(user, ip, tap, 0, CreateFailed(Record(Errored, ip, tap)))
    case Register(user, ip, tap) => SaveRunning(user, ip, tap)
    case SaveRunning(user, _, _) => Finished(user, Created)
    case KillVm(user, ip, tap, destroying) => DeleteRule(user, ip, tap, 0, AfterStop(destroying))
    case DeleteRule(user, ip, tap, step, exit) =>
      if step + 1 < RULES then DeleteRule(user, ip, tap, step + 1, exit) else DeleteTap(user, ip, tap, exit)
    case DeleteTap(user, ip, _, exit) => ReleaseAddress(user, ip, exit)
    case ReleaseAddress(user, _, CreateFailed(info)) => SaveError(user, info)
    case ReleaseAddress(user, _, AfterStop(destroying)) => LoadRecord(user, destroying)
    case SaveError(user, _) => Finished(user, Failed)
    case TakeInstance(user, destroying) =>
      if user in w.instances then KillVm(user, w.instances[user].ip, w.instances[user].tap, destroying)
      else if destroying then CleanStorage(user)
      else Finished(user, NotRunning)
    case LoadRecord(user, destroying) =>
      if ok && user in w.records then SaveStopped(user, w.records[user].(status := Stopped), destroying)
      else AfterStopping(user, destroying)
    case SaveStopped(user, _, destroying) => AfterStopping(user, destroying)
    case CheckRunning(user) => if user in w.instances then TakeInstance(user, true) else CleanStorage(user)
    case CleanStorage(user) => if ok then DeleteRecord(user) else Finished(user, StorageLeft)
    case DeleteRecord(user) => Finished(user, Destroyed)
    case Finished(_, _) => c
  }

  function AfterStopping(user: string, destroying: bool): Call
  {
    if destroying then CleanStorage(user) else Finished(user, StopDone)
  }

  // ---------- what a call, an instance or an overwritten instance is answerable for ----------

  /** Rules from step lo up to (not including) hi are in the chain on this holder's behalf; tap is
      the name it will have to destroy, live when the device exists. */
  datatype Holding = Nothing | Holds(ip: string, tap: Option<string>, live: bool, lo: nat, hi: nat)

  function Full(i: Instance): Holding
  {
    Holds(i.ip, Some(i.tap), true, 0, RULES)
  }

  function CallHolding(c: Call): Holding
  {
    match c
    case CopyRootfs(_, ip) => Holds(ip, None, false, 0, 0)
    case MakeData(_, ip) => Holds(ip, None, false, 0, 0)
    case TakeTapIndex(_, ip) => Holds(ip, None, false, 0, 0)
    case TapCommand(_, ip, tap, step) => Holds(ip, Some(tap), step > 0, 0, 0)
    case UndoTap(_, ip, tap, step) => Holds(ip, Some(tap), step > 0, 0, 0)
    case AddRule(_, ip, tap, step) => Holds(ip, Some(tap), true, 0, step)
    case Launch(_, ip, tap) => Full(Instance(ip, tap))
    case Register(_, ip, tap) => Full(Instance(ip, tap))
    case KillVm(_, ip, tap, _) => Full(Instance(ip, tap))
    case DeleteRule(_, ip, tap, step, _) => Holds(ip, Some(tap), true, step, RULES)
    case DeleteTap(_, ip, tap, _) => Holds(ip, Some(tap), true, 0, 0)
    case ReleaseAddress(_, ip, _) => Holds(ip, None, false, 0, 0)
    case _ => Nothing
  }

  datatype Holder = OfCall(id: nat) | OfInstance(user: string) | OfOverwritten(instance: Instance)

  /** What the run has left behind or handed over. overwritten: instances replaced in the registry
      while their VM ran; left: rules nobody will delete; orphans: devices whose deletion failed;
      issued: TAP names in the order handed out; holder and tapHolder: who answers for an address
      or a TAP name. */
  datatype History = History(
    overwritten: set<Instance>,
    left: multiset<Rule>,
    orphans: set<string>,
    issued: seq<string>,
    holder: map<string, Holder>,
    tapHolder: map<string, Holder>)

  datatype System = System(world: World, calls: map<nat, Call>, past: History)

  /** What a step of call id adds to the history. */
  function Remember(cfg: Config, w: World, h: History, id: nat, c: Call, ok: bool): History
  {
    match c
    case Allocate(_) => (
      match FirstFree(cfg.pool, 0, w.leases.Keys)
      case None => h
      case Some(ip) => h.(holder := h.holder[ip := OfCall(id)]))
    case TakeTapIndex(_, _) =>
      h.(issued := h.issued + [TapName(w.nextIdx)], tapHolder := h.tapHolder[TapName(w.nextIdx) := OfCall(id)])
    case UndoTap(_, _, tap, step) =>
      h.(orphans := if ok || step == 0 then h.orphans else h.orphans + {tap}, tapHolder := h.tapHolder - {tap})
    case AddRule(_, ip, _, step) =>
      if ok then h else h.(left := h.left + multiset(RuleSpan(cfg.gateway, ip, 0, step)))
    case Register(user, ip, tap) =>
      var h' := if user in w.instances then Overwrite(h, w.instances[user]) else h;
      h'.(holder := h'.holder[ip := OfInstance(user)], tapHolder := h'.tapHolder[tap := OfInstance(user)])
    case DeleteRule(_, ip, _, step, _) =>
      if ok then h else h.(left := h.left + multiset{IsolationRule(cfg.gateway, ip, step)})
    case DeleteTap(_, _, tap, _) =>
      h.(orphans := if ok then h.orphans else h.orphans + {tap}, tapHolder := h.tapHolder - {tap})
    case ReleaseAddress(_, ip, _) => h.(holder := h.holder - {ip})
    case TakeInstance(user, _) =>
      if user in w.instances then
        h.(holder := h.holder[w.instances[user].ip := OfCall(id)],
           tapHolder := h.tapHolder[w.instances[user].tap := OfCall(id)])
      else h
    case _ => h
  }

  function Overwrite(h: History, i: Instance): History
  {
    h.(overwritten := h.overwritten + {i},
       holder := h.holder[i.ip := OfOverwritten(i)],
       tapHolder := h.tapHolder[i.tap := OfOverwritten(i)])
  }

  // ---------- runs ----------

  /** Calls begin, advance by one step, or a VM process ends by itself (its request context is
      cancelled, or the guest halts). */
  datatype Event = Begin(id: nat, call: Call) | Advance(id: nat, ok: bool) | Halt(instance: Instance)

  predicate IsEntry(c: Call)
  {
    c.CheckExists? || c.CheckRunning? || (c.TakeInstance? && !c.destroying)
  }

  /** One event; an event that is not possible in s leaves s as it is. */
  function Step(cfg: Config, s: System, e: Event): System
  {
    match e
    case Begin(id, c) => if IsEntry(c) && id !in s.calls then s.(calls := s.calls[id := c]) else s
    case Advance(id, ok) =>
      if id in s.calls then
        var c := s.calls[id];
        System(Effect(cfg, s.world, c, ok),
               s.calls[id := Next(cfg, s.world, c, ok)],
               Remember(cfg, s.world, s.past, id, c, ok))
      else s
    case Halt(i) => s.(world := s.world.(running := s.world.running - {i}))
  }

  const START := System(
    World(map[], 1, {}, [], map[], {}, map[], {}),
    map[],
    History({}, multiset{}, {}, [], map[], map[]))

  function Run(cfg: Config, events: seq<Event>): System
  {
    if events == [] then START else Step(cfg, Run(cfg, events[..|events| - 1]), events[|events| - 1])
  }
}

/** The access-token cache and lock of wechat-token.ts: any number of processes over two shared Redis
    keys, with a clock in milliseconds. Every Redis command, HTTP call and wait is one step. */
module TokenLock {
  import opened Wrappers

  const LOCK_MS := 30_000
  const WAIT_MS := 1_000
  const THRESHOLD := 600

  /** The cached token: expiresAt in Unix seconds, as stored; dropAt, in milliseconds, is when Redis
      drops the key; computedAt is when expiresAt was computed. */
  datatype Token = Token(value: nat, expiresAt: int, dropAt: int, computedAt: int)

  /** The lock key: its value is always '1', so owner is known only to this model. */
  datatype Lock = Lock(owner: nat, expiry: int)

  /** Where a caller is. retries counts its waits; first is when its lock attempt first failed; since
      is when it took the lock. */
  datatype Process =
    | Reading(retries: nat, first: int)
    | Locking(retries: nat, first: int)
    | Waiting(retries: nat, first: int, until: int)
    | Fetching(since: int)
    | Storing(since: int, value: nat, lifetime: int, computedAt: int)
    | Unlocking(since: int, result: Option<nat>)
    | Forcing
    | Done(result: Option<nat>)

  datatype State = State(now: int, token: Option<Token>, lock: Option<Lock>, processes: map<nat, Process>)

  /** What the HTTP call or the Redis SET of a step gives. */
  datatype Reply = Good(value: nat, lifetime: int) | Bad

  datatype Event = Tick(ms: nat) | Get(id: nat) | Force(id: nat) | Go(id: nat, reply: Reply) | Crash(id: nat)

  predicate LockHeld(s: State)
  {
    s.lock.Some? && s.now < s.lock.value.expiry
  }

  /** The cached token exists and is still valid with its buffer at time t. */
  predicate FreshAt(s: State, t: int)
  {
    s.token.Some? && t < s.token.value.dropAt && s.token.value.expiresAt - THRESHOLD > t / 1000
  }

  function Move(s: State, id: nat, p: Process): State
  {
    s.(processes := s.processes[id := p])
  }

  /** One step of process id. */
  function Advance(s: State, id: nat, reply: Reply): State
    requires id in s.processes
  {
    match s.processes[id]
    case Reading(n, first) =>
      Move(s, id, if FreshAt(s, s.now) then Done(Some(s.token.value.value)) else Locking(n, first))
    case Locking(n, first) =>
      if LockHeld(s) then Move(s, id, Waiting(n + 1, if n == 0 then s.now else first, s.now + WAIT_MS))
      else Move(s, id, Fetching(s.now)).(lock := Some(Lock(id, s.now + LOCK_MS)))
    case Waiting(n, first, until) => if s.now >= until then Move(s, id, Reading(n, first)) else s
    case Fetching(since) =>
      Move(s, id, match reply
                  case Good(value, lifetime) => Storing(since, value, lifetime, s.now)
                  case Bad => Unlocking(since, None))
    case Storing(since, value, lifetime, computedAt) =>
      if reply.Bad? then Move(s, id, Unlocking(since, None))
      else
        Move(s, id, Unlocking(since, Some(value))).(
        token := Some(Token(value, computedAt / 1000 + lifetime, s.now + 1000 * lifetime, computedAt)))
    case Unlocking(_, result) => Move(s, id, Done(result)).(lock := None)
    case Forcing => Move(s, id, Locking(0, 0)).(token := None)
    case Done(_) => s
  }

  function Step(s: State, e: Event): State
  {
    match e
    case Tick(ms) => s.(now := s.now + ms)
    case Get(id) => if id in s.processes then s else Move(s, id, Reading(0, 0))
    case Force(id) => if id in s.processes then s else Move(s, id, Forcing)
    case Go(id, reply) => if id in s.processes then Advance(s, id, reply) else s
    case Crash(id) => s.(processes := s.processes - {id})
  }

  /** From an empty Redis at time start. */
  function Run(start: int, events: seq<Event>): State
  {
    if events == [] then State(start, None, None, map[])
    else Step(Run(start, events[..|events| - 1]), events[|events| - 1])
  }

  // ---------- mutual exclusion ----------

  /** Between taking and deleting the lock. */
  predicate InCritical(p: Process)
  {
    p.Fetching? || p.Storing? || p.Unlocking?
  }

  ghost predicate Critical(s: State, id: nat)
  {
    id in s.processes && InCritical(s.processes[id])
  }

  /** No refresh has yet taken 30 s. */
  ghost predicate InTime(s: State)
  {
    forall id :: Critical(s, id) ==> s.now < s.processes[id].since + LOCK_MS
  }

  ghost predicate OwnLock(s: State)
  {
    forall id :: Critical(s, id) ==> s.lock == Some(Lock(id, s.processes[id].since + LOCK_MS))
  }

  lemma StepKeepsOwnLock(s: State, e: Event)
    requires OwnLock(s) && InTime(s)
    ensures OwnLock(Step(s, e))
  {
    var t := Step(s, e);
    forall id | Critical(t, id)
      ensures t.lock == Some(Lock(id, t.processes[id].since + LOCK_MS))
    {
      if e.Go? && e.id in s.processes && Critical(s, e.id) {
        assert s.lock.Some? && s.lock.value.owner == e.id;
      }
      assert Critical(s, id) || (e.Go? && id == e.id);
    }
  }

  /** In every run of any number of processes, forced refreshes, failures and crashes included, in which
      each refresh finishes within 30 s of taking the lock: at most one process is between lock and
      unlock, and a DEL of the lock finds the deleter's own lock. */
  lemma {:induction false} MutualExclusion(start: int, events: seq<Event>)
    requires forall n :: 0 <= n < |events| ==> InTime(Run(start, events[..n]))
    ensures var s := Run(start, events);
            && OwnLock(s)
            && (forall p, q :: Critical(s, p) && Critical(s, q) ==> p == q)
            && (forall p :: p in s.processes && s.processes[p].Unlocking? ==> s.lock.Some? && s.lock.value.owner == p)
  {
    if events != [] {
      var prefix := events[..|events| - 1];
      assert forall n :: 0 <= n < |prefix| ==> prefix[..n] == events[..n];
      MutualExclusion(start, prefix);
      StepKeepsOwnLock(Run(start, prefix), events[|events| - 1]);
    }
    var s := Run(start, events);
    assert forall p :: p in s.processes && s.processes[p].Unlocking? ==> Critical(s, p);
  }

  lemma RunAppend(start: int, events: seq<Event>, e: Event)
    ensures Run(start, events + [e]) == Step(Run(start, events), e)
  {
    assert (events + [e])[..|events|] == events;
  }

  // ---------- exactly when it fails ----------

  /** While p is between lock and unlock, another caller's SET NX succeeds exactly when p has been there
      for 30 s. */
  lemma EntersIff(s: State, p: nat, q: nat, reply: Reply)
    requires OwnLock(s) && Critical(s, p) && q in s.processes && s.processes[q].Locking?
    ensures Critical(Advance(s, q, reply), q) <==> s.now >= s.processes[p].since + LOCK_MS
  {
  }

  /** A process that crashes is gone, but its lock stays until it expires: until then nobody else enters. */
  lemma CrashKeepsLock(s: State, p: nat, q: nat, reply: Reply)
    requires p != q && q in s.processes && s.processes[q].Locking?
    ensures var t := Step(s, Crash(p));
            && p !in t.processes && t.lock == s.lock && t.token == s.token
            && (Critical(Advance(t, q, reply), q) <==> s.lock.None? || s.now >= s.lock.value.expiry)
  {
  }

  /** Every refresh of the run so far was in time whenever something happened; in its last state one may
      be late. */
  ghost predicate InTimeSoFar(start: int, events: seq<Event>)
  {
    forall n :: 0 <= n < |events| ==> InTime(Run(start, events[..n]))
  }

  lemma {:induction false} OwnLockSoFar(start: int, events: seq<Event>)
    requires InTimeSoFar(start, events)
    ensures OwnLock(Run(start, events))
  {
    if events != [] {
      MutualExclusion(start, events);
    }
  }

  lemma {:induction false} FreshId(ids: set<nat>) returns (q: nat)
    ensures forall id :: id in ids ==> id < q
  {
    if ids == {} {
      q := 0;
    } else {
      var id :| id in ids;
      var r := FreshId(ids - {id});
      assert forall x :: x in ids ==> x == id || x in ids - {id};
      q := if r > id then r else id + 1;
    }
  }

  /** Two processes between lock and unlock. */
  ghost predicate Two(s: State)
  {
    exists p, q :: p != q && Critical(s, p) && Critical(s, q)
  }

  /** A caller that forces a refresh when p is late. */
  function Intruder(q: nat): seq<Event>
  {
    [Force(q)] + [Go(q, Bad)] + [Go(q, Bad)]
  }

  /** From any state with its own lock in which p is late, a new caller enters, and the lock is its. */
  lemma IntruderEnters(s: State, p: nat, q: nat)
    requires OwnLock(s) && Critical(s, p) && s.now >= s.processes[p].since + LOCK_MS && q !in s.processes
    ensures var t := Step(Step(Step(s, Force(q)), Go(q, Bad)), Go(q, Bad));
            && Critical(t, q) && Critical(t, p) && t.processes[p] == s.processes[p]
            && t.lock == Some(Lock(q, s.now + LOCK_MS))
  {
    var a := Step(s, Force(q));
    var b := Step(a, Go(q, Bad));
    assert a.processes[q] == Forcing && b.processes[q] == Locking(0, 0);
    assert !LockHeld(b);
  }

  /** Whoever deletes the lock then deletes the other's. */
  lemma LateDelRemovesOthersLock(s: State, p: nat, q: nat)
    requires p != q && Critical(s, p) && Critical(s, q) && s.lock.Some? && s.lock.value.owner == q
    requires s.processes[p].Unlocking?
    ensures var t := Step(s, Go(p, Bad)); t.lock == None && Critical(t, q) && !Critical(t, p)
  {
  }

  /** After every run that was in time so far, if p is late then p and a new caller can both be between
      lock and unlock at once, with the lock the newcomer's. */
  lemma LateRefreshLosesLock(start: int, events: seq<Event>, p: nat) returns (q: nat, more: seq<Event>)
    requires InTimeSoFar(start, events) && Critical(Run(start, events), p)
    requires var s := Run(start, events); s.now >= s.processes[p].since + LOCK_MS
    ensures var s, t := Run(start, events), Run(start, events + more);
            && q !in s.processes && more == Intruder(q) && Critical(t, p) && Critical(t, q)
            && t.processes[p] == s.processes[p] && t.lock == Some(Lock(q, s.now + LOCK_MS))
  {
    var s := Run(start, events);
    OwnLockSoFar(start, events);
    q := FreshId(s.processes.Keys);
    more := Intruder(q);
    RunAppend(start, events, Force(q));
    RunAppend(start, events + [Force(q)], Go(q, Bad));
    RunAppend(start, events + [Force(q)] + [Go(q, Bad)], Go(q, Bad));
    assert events + [Force(q)] + [Go(q, Bad)] + [Go(q, Bad)] == events + more;
    IntruderEnters(s, p, q);
  }

  /** No time passes. */
  ghost predicate Instant(events: seq<Event>)
  {
    forall n :: 0 <= n < |events| ==> events[n].Tick? ==> events[n].ms == 0
  }

  /** A late process brought to its DEL, its refresh failing unless it is done. */
  lemma FinishRuns(start: int, events: seq<Event>, p: nat, q: nat) returns (more: seq<Event>)
    requires var s := Run(start, events); p != q && Critical(s, p) && Critical(s, q)
    ensures Instant(more)
    ensures var s, t := Run(start, events), Run(start, events + more);
            p in t.processes && t.processes[p].Unlocking? && Critical(t, q) && t.lock == s.lock
  {
    if Run(start, events).processes[p].Unlocking? {
      more := [];
      assert events + more == events;
    } else {
      more := [Go(p, Bad)];
      RunAppend(start, events, Go(p, Bad));
    }
  }

  /** And then p's DEL removes the newcomer's lock, under which that still works. */
  lemma LateRefreshDeletesOthersLock(start: int, events: seq<Event>, p: nat) returns (q: nat, more: seq<Event>)
    requires InTimeSoFar(start, events) && Critical(Run(start, events), p)
    requires var s := Run(start, events); s.now >= s.processes[p].since + LOCK_MS
    ensures var t := Run(start, events + more);
            Instant(more) && q != p && Critical(t, q) && t.lock == None && !Critical(t, p)
  {
    var enter: seq<Event>;
    q, enter := LateRefreshLosesLock(start, events, p);
    var t := Run(start, events + enter);
    var finish := FinishRuns(start, events + enter, p, q);
    RunAppend(start, events + enter + finish, Go(p, Bad));
    LateDelRemovesOthersLock(Run(start, events + enter + finish), p, q);
    more := enter + finish + [Go(p, Bad)];
    assert events + enter + finish + [Go(p, Bad)] == events + more;
  }

  lemma InstantStepKeepsInTime(s: State, e: Event)
    requires OwnLock(s) && InTime(s) && (e.Tick? ==> e.ms == 0)
    ensures OwnLock(Step(s, e)) && InTime(Step(s, e))
  {
    StepKeepsOwnLock(s, e);
    var t := Step(s, e);
    forall id | Critical(t, id)
      ensures t.now < t.processes[id].since + LOCK_MS
    {
      assert Critical(s, id) || (e.Go? && id == e.id);
    }
  }

  lemma {:induction false} InstantRunKeepsInTime(start: int, events: seq<Event>, more: seq<Event>)
    requires OwnLock(Run(start, events)) && InTime(Run(start, events)) && Instant(more)
    ensures OwnLock(Run(start, events + more)) && InTime(Run(start, events + more))
  {
    if more == [] {
      assert events + more == events;
    } else {
      var rest, e := more[..|more| - 1], more[|more| - 1];
      InstantRunKeepsInTime(start, events, rest);
      RunAppend(start, events + rest, e);
      assert events + rest + [e] == events + more;
      InstantStepKeepsInTime(Run(start, events + rest), e);
    }
  }

  lemma OneAtATime(s: State)
    requires OwnLock(s)
    ensures !Two(s)
  {
  }

  /** Mutual exclusion can be broken without time passing exactly when some refresh is late: after every
      run that was in time so far, some continuation with no delay has two processes between lock and
      unlock if and only if a process has been there for 30 s. */
  lemma BrokenIffLate(start: int, events: seq<Event>)
    requires InTimeSoFar(start, events)
    ensures (exists more :: Instant(more) && Two(Run(start, events + more))) <==> !InTime(Run(start, events))
  {
    OwnLockSoFar(start, events);
    if InTime(Run(start, events)) {
      forall more | Instant(more)
        ensures !Two(Run(start, events + more))
      {
        InstantRunKeepsInTime(start, events, more);
        OneAtATime(Run(start, events + more));
      }
    } else {
      var p :| Critical(Run(start, events), p) && Run(start, events).now >= Run(start, events).processes[p].since + LOCK_MS;
      var q, more := LateRefreshLosesLock(start, events, p);
      assert Instant(more) && Two(Run(start, events + more));
    }
  }

  /** Process 0 took the lock at start and is still fetching at now; nobody else is about. */
  function Alone(now: int, start: int): State
  {
    State(now, None, Some(Lock(0, start + LOCK_MS)), map[0 := Fetching(start)])
  }

  lemma FirstComes(start: int)
    ensures var s := State(start, None, None, map[]);
            Step(Step(Step(s, Get(0)), Go(0, Bad)), Go(0, Bad)) == Alone(start, start)
  {
    var a := Step(State(start, None, None, map[]), Get(0));
    assert a.processes == map[0 := Reading(0, 0)];
    var b := Step(a, Go(0, Bad));
    assert b.processes == map[0 := Locking(0, 0)];
  }

  /** The state after three more events. */
  lemma RunThree(start: int, events: seq<Event>, e0: Event, e1: Event, e2: Event) returns (all: seq<Event>)
    ensures all == events + [e0] + [e1] + [e2]
    ensures Run(start, all) == Step(Step(Step(Run(start, events), e0), e1), e2)
  {
    RunAppend(start, events, e0);
    RunAppend(start, events + [e0], e1);
    RunAppend(start, events + [e0] + [e1], e2);
    all := events + [e0] + [e1] + [e2];
  }

  lemma SecondComes(start: int)
    ensures var s := Alone(start + LOCK_MS, start);
            Step(Step(Step(s, Get(1)), Go(1, Bad)), Go(1, Bad)) ==
            s.(lock := Some(Lock(1, s.now + LOCK_MS)), processes := s.processes[1 := Fetching(s.now)])
  {
    var a := Step(Alone(start + LOCK_MS, start), Get(1));
    assert a.processes == map[0 := Fetching(start), 1 := Reading(0, 0)];
    var b := Step(a, Go(1, Bad));
    assert b.processes == map[0 := Fetching(start), 1 := Locking(0, 0)];
  }

  lemma FirstDeletes(s: State)
    requires Critical(s, 0) && s.processes[0].Fetching? && Critical(s, 1)
    ensures var t := Step(Step(s, Go(0, Bad)), Go(0, Bad)); Critical(t, 1) && t.lock == None
  {
  }

  /** It does happen, with nobody forcing a refresh: a refresh takes 30 s, a second process enters, and the
      first one's DEL removes the second one's lock. */
  lemma SlowRefreshLosesLock(start: int) returns (both: seq<Event>, after: seq<Event>)
    ensures var s := Run(start, both); Critical(s, 0) && Critical(s, 1) && s.lock == Some(Lock(1, s.now + LOCK_MS))
    ensures var s := Run(start, after); Critical(s, 1) && s.lock == None
    ensures both <= after
  {
    both := Collide(start);
    var s := Run(start, both);
    RunAppend(start, both, Go(0, Bad));
    RunAppend(start, both + [Go(0, Bad)], Go(0, Bad));
    after := both + [Go(0, Bad)] + [Go(0, Bad)];
    FirstDeletes(s);
  }

  lemma Collide(start: int) returns (both: seq<Event>)
    ensures Run(start, both) ==
            State(start + LOCK_MS, None, Some(Lock(1, start + LOCK_MS + LOCK_MS)),
                  map[0 := Fetching(start), 1 := Fetching(start + LOCK_MS)])
  {
    var late := FirstIsLate(start);
    both := RunThree(start, late, Get(1), Go(1, Bad), Go(1, Bad));
    SecondComes(start);
  }

  lemma FirstIsLate(start: int) returns (events: seq<Event>)
    ensures Run(start, events) == Alone(start + LOCK_MS, start)
  {
    var first := RunThree(start, [], Get(0), Go(0, Bad), Go(0, Bad));
    FirstComes(start);
    RunAppend(start, first, Tick(LOCK_MS));
    events := first + [Tick(LOCK_MS)];
  }

  // ---------- bounded retry ----------

  const MIN_LIFETIME := 631

  /** The event is one of a run in which refreshes succeed within 30 s and give tokens of more than 631 s,
      waits last 1 s, a caller tries the lock at once after reading, and nobody forces a refresh. */
  ghost predicate Punctual(s: State, e: Event)
  {
    PunctualOver(s, e, MIN_LIFETIME)
  }

  /** The same for tokens of more than over seconds. */
  ghost predicate PunctualOver(s: State, e: Event, over: int)
  {
    match e
    case Tick(ms) =>
      InTime(Step(s, e)) && forall id :: id in s.processes ==> MayWait(s.processes[id], s.now + ms)
    case Get(_) => true
    case Force(_) => false
    case Go(_, reply) => reply.Good? && reply.lifetime > over
    case Crash(_) => false
  }

  /** Time may pass until t while a caller is at p. */
  predicate MayWait(p: Process, t: int)
  {
    !p.Reading? && !p.Locking? && (p.Waiting? ==> t <= p.until)
  }

  ghost predicate PunctualRun(start: int, events: seq<Event>)
  {
    PunctualRunOver(start, events, MIN_LIFETIME)
  }

  ghost predicate PunctualRunOver(start: int, events: seq<Event>, over: int)
  {
    forall n :: 0 <= n < |events| ==> PunctualOver(Run(start, events[..n]), events[n], over)
  }

  /** A process that took the lock by time t has not stored its token yet. */
  ghost predicate Pending(s: State, t: int)
  {
    exists q :: q in s.processes && (s.processes[q].Fetching? || s.processes[q].Storing?) && s.processes[q].since <= t
  }

  /** The token was computed by c or later, and with a lifetime over the minimum. */
  ghost predicate GoodToken(s: State)
  {
    s.token.Some? ==>
      && s.token.value.expiresAt > s.token.value.computedAt / 1000 + MIN_LIFETIME
      && s.token.value.dropAt > s.token.value.computedAt + 1000 * MIN_LIFETIME
  }

  ghost predicate ProcessOk(s: State, p: Process)
  {
    match p
    case Reading(n, first) =>
      n == 0 || (n <= 30 && s.now == first + n * WAIT_MS && (Pending(s, first) || FreshAt(s, s.now)))
    case Locking(n, first) =>
      n == 0 || (n < 30 && s.now == first + n * WAIT_MS && (Pending(s, first) || FreshAt(s, s.now + WAIT_MS)))
    case Waiting(n, first, until) =>
      && 0 < n <= 30 && until == first + n * WAIT_MS && s.now <= until <= s.now + WAIT_MS
      && (Pending(s, first) || FreshAt(s, until))
    case Fetching(since) => since <= s.now
    case Storing(since, _, lifetime, computedAt) => since <= computedAt <= s.now && lifetime > MIN_LIFETIME
    case Unlocking(since, _) => since <= s.now && s.token.Some? && since <= s.token.value.computedAt
    case Forcing => false
    case Done(_) => true
  }

  ghost predicate Bounded(s: State)
  {
    && OwnLock(s) && InTime(s) && GoodToken(s)
    && (LockHeld(s) ==> Critical(s, s.lock.value.owner))
    && (forall id :: id in s.processes ==> ProcessOk(s, s.processes[id]))
  }

  lemma TickKeepsBounded(s: State, ms: nat)
    requires Bounded(s) && Punctual(s, Tick(ms))
    ensures Bounded(Step(s, Tick(ms)))
  {
    var t := Step(s, Tick(ms));
    assert forall x :: Pending(s, x) ==> Pending(t, x);
    forall id | id in t.processes
      ensures ProcessOk(t, t.processes[id])
    {
      assert MayWait(s.processes[id], s.now + ms);
    }
  }

  /** What a step of another process must leave to a caller. */
  ghost predicate Leaves(s: State, t: State)
  {
    && t.now == s.now
    && (forall x :: x <= s.now + WAIT_MS && FreshAt(s, x) ==> FreshAt(t, x))
    && (forall x :: Pending(s, x) ==> Pending(t, x) || FreshAt(t, s.now + WAIT_MS))
  }

  lemma FreshEarlier(s: State, x: int, y: int)
    requires FreshAt(s, y) && x <= y
    ensures FreshAt(s, x)
  {
  }

  lemma OthersKeepOk(s: State, t: State, p: Process)
    requires ProcessOk(s, p) && Leaves(s, t)
    requires p.Unlocking? ==> t.token == s.token
    ensures ProcessOk(t, p)
  {
    if FreshAt(t, s.now + WAIT_MS) && (p.Reading? || p.Waiting?) {
      FreshEarlier(t, if p.Reading? then s.now else if p.until <= s.now + WAIT_MS then p.until else s.now, s.now + WAIT_MS);
    }
  }

  /** A token stored by a holder within its 30 s is good for another second at least. */
  lemma HolderTokenIsFresh(s: State, since: int)
    requires GoodToken(s) && s.token.Some? && since <= s.token.value.computedAt && s.now < since + LOCK_MS
    ensures FreshAt(s, s.now + WAIT_MS)
  {
  }

  lemma CallKeepsBounded(s: State, id: nat)
    requires Bounded(s)
    ensures Bounded(Step(s, Get(id)))
  {
    var t := Step(s, Get(id));
    if id !in s.processes {
      forall x | Pending(s, x)
        ensures Pending(t, x)
      {
        var q :| q in s.processes && (s.processes[q].Fetching? || s.processes[q].Storing?) && s.processes[q].since <= x;
        assert t.processes[q] == s.processes[q];
      }
      forall j | j in t.processes
        ensures ProcessOk(t, t.processes[j])
      {
        if j != id {
          OthersKeepOk(s, t, s.processes[j]);
        }
      }
      StepKeepsOwnLock(s, Get(id));
      assert forall j :: Critical(t, j) ==> Critical(s, j);
    }
  }

  lemma OneHolder(s: State, p: nat, q: nat)
    requires OwnLock(s) && p != q
    ensures !Critical(s, p) || !Critical(s, q)
  {
    if Critical(s, p) && Critical(s, q) {
      assert false;
    }
  }

  /** Every process but the one that moves is as good as before. */
  lemma RestKeepsOk(s: State, t: State, id: nat)
    requires Bounded(s) && Leaves(s, t) && id in s.processes && id in t.processes
    requires t.processes == s.processes[id := t.processes[id]]
    requires t.token == s.token || Critical(s, id)
    requires ProcessOk(t, t.processes[id])
    ensures forall j :: j in t.processes ==> ProcessOk(t, t.processes[j])
  {
    forall j | j in t.processes
      ensures ProcessOk(t, t.processes[j])
    {
      if j != id {
        OneHolder(s, id, j);
        OthersKeepOk(s, t, s.processes[j]);
      }
    }
  }

  /** A step of a process that is not pending before, or still is after, and leaves the token alone. */
  lemma QuietLeaves(s: State, t: State, id: nat)
    requires id in s.processes && id in t.processes && t.now == s.now && t.token == s.token
    requires t.processes == s.processes[id := t.processes[id]]
    requires s.processes[id].Fetching? || s.processes[id].Storing? ==>
               (t.processes[id].Fetching? || t.processes[id].Storing?) && t.processes[id].since == s.processes[id].since
    ensures Leaves(s, t)
  {
    forall x | Pending(s, x)
      ensures Pending(t, x)
    {
      var q :| q in s.processes && (s.processes[q].Fetching? || s.processes[q].Storing?) && s.processes[q].since <= x;
      assert t.processes[q].since <= x;
    }
  }

  /** A caller that fails to take the lock has waited at most 30 times, and something will be fresh. */
  lemma FailedLockIsOk(s: State, id: nat, reply: Reply)
    requires Bounded(s) && id in s.processes && s.processes[id].Locking? && LockHeld(s)
    ensures var t := Advance(s, id, reply); ProcessOk(t, t.processes[id])
  {
    var t := Advance(s, id, reply);
    QuietLeaves(s, t, id);
    if s.processes[id].retries == 0 {
      var q := s.lock.value.owner;
      assert Critical(s, q);
      if s.processes[q].Unlocking? {
        HolderTokenIsFresh(s, s.processes[q].since);
      } else {
        assert q in t.processes && t.processes[q] == s.processes[q];
        assert Pending(t, s.now);
      }
    }
  }

  lemma ReadStepIsOk(s: State, id: nat, reply: Reply)
    requires Bounded(s) && id in s.processes && s.processes[id].Reading?
    ensures var t := Advance(s, id, reply); ProcessOk(t, t.processes[id])
  {
    var t, p := Advance(s, id, reply), s.processes[id];
    QuietLeaves(s, t, id);
    if p.retries > 0 && !FreshAt(s, s.now) {
      var q :| q in s.processes && (s.processes[q].Fetching? || s.processes[q].Storing?) && s.processes[q].since <= p.first;
      assert Critical(s, q) && t.processes[q] == s.processes[q];
    }
  }

  lemma StoreLeaves(s: State, id: nat, reply: Reply)
    requires Bounded(s) && id in s.processes && s.processes[id].Storing? && reply.Good?
    ensures var t := Advance(s, id, reply);
            GoodToken(t) && Leaves(s, t) && ProcessOk(t, t.processes[id])
  {
    var t := Advance(s, id, reply);
    assert Critical(s, id);
    HolderTokenIsFresh(t, s.processes[id].since);
    forall x | x <= s.now + WAIT_MS
      ensures FreshAt(t, x)
    {
      FreshEarlier(t, x, s.now + WAIT_MS);
    }
  }

  lemma GoKeepsProcessesOk(s: State, id: nat, reply: Reply)
    requires Bounded(s) && Punctual(s, Go(id, reply)) && id in s.processes
    ensures var t := Advance(s, id, reply); GoodToken(t) && forall j :: j in t.processes ==> ProcessOk(t, t.processes[j])
  {
    var t, p := Advance(s, id, reply), s.processes[id];
    assert ProcessOk(s, p);
    if p.Storing? {
      assert Critical(s, id);
      StoreLeaves(s, id, reply);
    } else {
      QuietLeaves(s, t, id);
      if p.Reading? {
        ReadStepIsOk(s, id, reply);
      } else if p.Locking? && LockHeld(s) {
        FailedLockIsOk(s, id, reply);
      }
    }
    RestKeepsOk(s, t, id);
  }

  lemma GoKeepsHolder(s: State, id: nat, reply: Reply)
    requires Bounded(s) && Punctual(s, Go(id, reply)) && id in s.processes
    ensures var t := Advance(s, id, reply); InTime(t) && (LockHeld(t) ==> Critical(t, t.lock.value.owner))
  {
    var t := Advance(s, id, reply);
    forall j | Critical(t, j)
      ensures t.now < t.processes[j].since + LOCK_MS
    {
      if j != id || s.processes[id].Fetching? || s.processes[id].Storing? {
        assert Critical(s, j);
      }
    }
  }

  lemma StepKeepsBounded(s: State, e: Event)
    requires Bounded(s) && Punctual(s, e)
    ensures Bounded(Step(s, e))
  {
    match e {
      case Tick(ms) => TickKeepsBounded(s, ms);
      case Get(id) => CallKeepsBounded(s, id);
      case Go(id, reply) =>
        if id in s.processes {
          StepKeepsOwnLock(s, e);
          GoKeepsProcessesOk(s, id, reply);
          GoKeepsHolder(s, id, reply);
        }
    }
  }

  function Retries(p: Process): nat
  {
    match p
    case Reading(n, _) => n
    case Locking(n, _) => n
    case Waiting(n, _, _) => n
    case _ => 0
  }

  lemma {:induction false} PunctualRunBounded(start: int, events: seq<Event>)
    requires PunctualRun(start, events)
    ensures Bounded(Run(start, events))
  {
    if events != [] {
      var prefix, n := events[..|events| - 1], |events| - 1;
      assert forall n :: 0 <= n < |prefix| ==> prefix[..n] == events[..n] && prefix[n] == events[n];
      PunctualRunBounded(start, prefix);
      assert Punctual(Run(start, events[..n]), events[n]);
      StepKeepsBounded(Run(start, prefix), events[n]);
    }
  }

  lemma NothingPendingFor30s(s: State, t: int)
    requires InTime(s) && s.now >= t + LOCK_MS
    ensures !Pending(s, t)
  {
    assert forall q :: q in s.processes && (s.processes[q].Fetching? || s.processes[q].Storing?) ==> Critical(s, q);
  }

  /** In every punctual run no caller retries more than 30 times, and after its 30th wait it finds a
      fresh token. */
  lemma RetriesAreBounded(start: int, events: seq<Event>, id: nat)
    requires PunctualRun(start, events) && id in Run(start, events).processes
    ensures var s := Run(start, events);
            Retries(s.processes[id]) <= 30 && (s.processes[id].Reading? && s.processes[id].retries == 30 ==> FreshAt(s, s.now))
  {
    PunctualRunBounded(start, events);
    var s := Run(start, events);
    var p := s.processes[id];
    assert ProcessOk(s, p);
    if p.Reading? && p.retries == 30 {
      NothingPendingFor30s(s, p.first);
    }
  }

  // ---------- the bound is attained ----------

  /** Process 0 has held the lock since since and has not stored its token; process 1 waits for it. */
  function Refreshing(now: int, since: int, holder: Process, waiter: Process): State
  {
    State(now, None, Some(Lock(0, since + LOCK_MS)), map[0 := holder, 1 := waiter])
  }

  predicate Busy(p: Process, since: int)
  {
    (p.Fetching? || p.Storing?) && p.since == since
  }

  /** A run extended by one punctual event. */
  lemma ExtendPunctual(start: int, events: seq<Event>, e: Event, over: int)
    requires PunctualRunOver(start, events, over) && PunctualOver(Run(start, events), e, over)
    ensures PunctualRunOver(start, events + [e], over) && Run(start, events + [e]) == Step(Run(start, events), e)
  {
    RunAppend(start, events, e);
    var all := events + [e];
    forall n | 0 <= n < |all|
      ensures PunctualOver(Run(start, all[..n]), all[n], over)
    {
      assert n < |events| ==> all[..n] == events[..n] && all[n] == events[n];
      assert n == |events| ==> all[..n] == events;
    }
  }

  lemma ExtendTo(start: int, before: seq<Event>, e: Event, t: State, over: int) returns (events: seq<Event>)
    requires PunctualRunOver(start, before, over) && PunctualOver(Run(start, before), e, over)
    requires Step(Run(start, before), e) == t
    ensures PunctualRunOver(start, events, over) && Run(start, events) == t
  {
    ExtendPunctual(start, before, e, over);
    events := before + [e];
  }

  /** Process 0 takes the lock of an empty Redis. */
  lemma FirstTakes(start: int, before: seq<Event>, now: int, over: int) returns (events: seq<Event>)
    requires over < 7200 && PunctualRunOver(start, before, over) && Run(start, before) == State(now, None, None, map[])
    ensures PunctualRunOver(start, events, over) && Run(start, events) == Alone(now, now)
  {
    var g := Good(7, 7200);
    var get := ExtendTo(start, before, Get(0), State(now, None, None, map[0 := Reading(0, 0)]), over);
    var read := ExtendTo(start, get, Go(0, g), State(now, None, None, map[0 := Locking(0, 0)]), over);
    events := ExtendTo(start, read, Go(0, g), Alone(now, now), over);
  }

  function Held(now: int, since: int, holder: Process): State
  {
    State(now, None, Some(Lock(0, since + LOCK_MS)), map[0 := holder])
  }

  lemma WaiterComes(now: int, since: int, holder: Process)
    requires Busy(holder, since) && now < since + LOCK_MS
    ensures Step(Held(now, since, holder), Get(1)) == Refreshing(now, since, holder, Reading(0, 0))
    ensures Step(Refreshing(now, since, holder, Reading(0, 0)), Go(1, Good(7, 7200))) ==
            Refreshing(now, since, holder, Locking(0, 0))
    ensures Step(Refreshing(now, since, holder, Locking(0, 0)), Go(1, Good(7, 7200))) ==
            Refreshing(now, since, holder, Waiting(1, now, now + WAIT_MS))
  {
  }

  lemma FirstWait(start: int, before: seq<Event>, now: int, since: int, holder: Process, over: int)
    returns (events: seq<Event>)
    requires over < 7200 && PunctualRunOver(start, before, over) && Busy(holder, since) && now < since + LOCK_MS
    requires Run(start, before) == Held(now, since, holder)
    ensures PunctualRunOver(start, events, over)
    ensures Run(start, events) == Refreshing(now, since, holder, Waiting(1, now, now + WAIT_MS))
  {
    WaiterComes(now, since, holder);
    var second := ExtendTo(start, before, Get(1), Refreshing(now, since, holder, Reading(0, 0)), over);
    var tried := WaiterGoes(start, second, now, since, holder, Reading(0, 0), Locking(0, 0), over);
    events := WaiterGoes(start, tried, now, since, holder, Locking(0, 0), Waiting(1, now, now + WAIT_MS), over);
  }

  /** The waiter's steps while process 0 refreshes. */
  lemma WaiterSteps(now: int, since: int, holder: Process, first: int, n: nat, g: Reply)
    requires now < since + LOCK_MS && 0 < n
    ensures Step(Refreshing(now, since, holder, Waiting(n, first, now)), Go(1, g)) ==
            Refreshing(now, since, holder, Reading(n, first))
    ensures Step(Refreshing(now, since, holder, Reading(n, first)), Go(1, g)) ==
            Refreshing(now, since, holder, Locking(n, first))
    ensures Step(Refreshing(now, since, holder, Locking(n, first)), Go(1, g)) ==
            Refreshing(now, since, holder, Waiting(n + 1, first, now + WAIT_MS))
  {
  }

  lemma WaitMayPass(now: int, since: int, holder: Process, first: int, n: nat, over: int)
    requires now + WAIT_MS < since + LOCK_MS && Busy(holder, since)
    ensures var s := Refreshing(now, since, holder, Waiting(n, first, now + WAIT_MS));
            PunctualOver(s, Tick(WAIT_MS), over) &&
            Step(s, Tick(WAIT_MS)) == Refreshing(now + WAIT_MS, since, holder, Waiting(n, first, now + WAIT_MS))
  {
  }

  lemma RetryFails(start: int, before: seq<Event>, now: int, since: int, holder: Process, first: int, n: nat, over: int)
    returns (events: seq<Event>)
    requires over < 7200 && PunctualRunOver(start, before, over) && now < since + LOCK_MS && 0 < n
    requires Run(start, before) == Refreshing(now, since, holder, Waiting(n, first, now))
    ensures PunctualRunOver(start, events, over)
    ensures Run(start, events) == Refreshing(now, since, holder, Waiting(n + 1, first, now + WAIT_MS))
  {
    WaiterSteps(now, since, holder, first, n, Good(7, 7200));
    var read := WaiterGoes(start, before, now, since, holder, Waiting(n, first, now), Reading(n, first), over);
    var tried := WaiterGoes(start, read, now, since, holder, Reading(n, first), Locking(n, first), over);
    events := WaiterGoes(start, tried, now, since, holder, Locking(n, first), Waiting(n + 1, first, now + WAIT_MS), over);
  }

  lemma WaitPasses(start: int, before: seq<Event>, now: int, since: int, holder: Process, first: int, n: nat, over: int)
    returns (events: seq<Event>)
    requires PunctualRunOver(start, before, over) && now + WAIT_MS < since + LOCK_MS && Busy(holder, since)
    requires Run(start, before) == Refreshing(now, since, holder, Waiting(n, first, now + WAIT_MS))
    ensures PunctualRunOver(start, events, over)
    ensures Run(start, events) == Refreshing(now + WAIT_MS, since, holder, Waiting(n, first, now + WAIT_MS))
  {
    WaitMayPass(now, since, holder, first, n, over);
    ExtendPunctual(start, before, Tick(WAIT_MS), over);
    events := before + [Tick(WAIT_MS)];
  }

  lemma WaiterGoes(start: int, before: seq<Event>, now: int, since: int, holder: Process, p: Process, p': Process, over: int)
    returns (events: seq<Event>)
    requires over < 7200 && PunctualRunOver(start, before, over) && Run(start, before) == Refreshing(now, since, holder, p)
    requires Step(Refreshing(now, since, holder, p), Go(1, Good(7, 7200))) == Refreshing(now, since, holder, p')
    ensures PunctualRunOver(start, events, over) && Run(start, events) == Refreshing(now, since, holder, p')
  {
    ExtendPunctual(start, before, Go(1, Good(7, 7200)), over);
    events := before + [Go(1, Good(7, 7200))];
  }

  /** The waiter, come at first, waits n times while process 0 holds the lock. */
  lemma {:induction false} Waits(start: int, before: seq<Event>, first: int, since: int, holder: Process, n: nat, over: int)
    returns (events: seq<Event>)
    requires 0 < n && first + 1000 * (n - 1) < since + LOCK_MS && Busy(holder, since)
    requires over < 7200 && PunctualRunOver(start, before, over) && Run(start, before) == Held(first, since, holder)
    ensures PunctualRunOver(start, events, over)
    ensures Run(start, events) ==
            Refreshing(first + 1000 * (n - 1), since, holder, Waiting(n, first, first + 1000 * n))
  {
    if n == 1 {
      events := FirstWait(start, before, first, since, holder, over);
    } else {
      var waited := Waits(start, before, first, since, holder, n - 1, over);
      events := NextWait(start, waited, first + 1000 * (n - 1), since, holder, first, n - 1, over);
    }
  }

  /** A wait that ends at now is followed by another. */
  lemma NextWait(start: int, before: seq<Event>, now: int, since: int, holder: Process, first: int, n: nat, over: int)
    returns (events: seq<Event>)
    requires over < 7200 && PunctualRunOver(start, before, over) && now < since + LOCK_MS && 0 < n && Busy(holder, since)
    requires Run(start, before) == Refreshing(now - WAIT_MS, since, holder, Waiting(n, first, now))
    ensures PunctualRunOver(start, events, over)
    ensures Run(start, events) == Refreshing(now, since, holder, Waiting(n + 1, first, now + WAIT_MS))
  {
    var ticked := WaitPasses(start, before, now - WAIT_MS, since, holder, first, n, over);
    events := RetryFails(start, ticked, now, since, holder, first, n, over);
  }

  /** Some punctual run makes a caller retry 30 times. */
  lemma ThirtyRetriesHappen(start: int) returns (events: seq<Event>)
    ensures PunctualRun(start, events) && 1 in Run(start, events).processes
    ensures Retries(Run(start, events).processes[1]) == 30
  {
    var taken := FirstTakes(start, [], start, MIN_LIFETIME);
    assert Alone(start, start) == Held(start, start, Fetching(start));
    events := Waits(start, taken, start, start, Fetching(start), 30, MIN_LIFETIME);
  }

  // ---------- and 631 s is the least lifetime for it ----------

  /** Process 0 at the last millisecond of a second, with a token of 631 s in hand and yet to store it. */
  function LateStore(since: int): Process
  {
    Storing(since, 7, MIN_LIFETIME, since)
  }

  lemma FirstFetches(start: int) returns (events: seq<Event>, since: int)
    ensures since % 1000 == 999 && PunctualRunOver(start, events, MIN_LIFETIME - 1)
    ensures Run(start, events) == Held(since + 1, since, LateStore(since))
  {
    var over, d := MIN_LIFETIME - 1, (999 - start % 1000) % 1000;
    since := start + d;
    var idle := ExtendTo(start, [], Tick(d), State(since, None, None, map[]), over);
    var taken := FirstTakes(start, idle, since, over);
    FetchSteps(since);
    var fetched := ExtendTo(start, taken, Go(0, Good(7, MIN_LIFETIME)), Held(since, since, LateStore(since)), over);
    events := ExtendTo(start, fetched, Tick(1), Held(since + 1, since, LateStore(since)), over);
  }

  lemma FetchSteps(since: int)
    ensures Step(Alone(since, since), Go(0, Good(7, MIN_LIFETIME))) == Held(since, since, LateStore(since))
    ensures var s := Held(since, since, LateStore(since));
            PunctualOver(s, Tick(1), MIN_LIFETIME - 1) && Step(s, Tick(1)) == Held(since + 1, since, LateStore(since))
  {
  }

  /** The token is stored at now, and process 1 still waits. */
  function Stored(now: int, since: int, stored: int, lock: Option<Lock>, rest: map<nat, Process>): State
  {
    State(now, Some(Token(7, since / 1000 + MIN_LIFETIME, stored + 1000 * MIN_LIFETIME, since)), lock, rest)
  }

  lemma StoreSteps(now: int, since: int, waiter: Process, until: int, g: Reply)
    requires g.Good? && waiter.Waiting? && waiter.until == until == now + WAIT_MS
    ensures var s := Refreshing(now, since, LateStore(since), waiter);
            Step(Step(s, Go(0, g)), Go(0, g)) == Stored(now, since, now, None, map[0 := Done(Some(7)), 1 := waiter])
    ensures var s := Stored(now, since, now, None, map[0 := Done(Some(7)), 1 := waiter]);
            PunctualOver(s, Tick(WAIT_MS), MIN_LIFETIME - 1) &&
            Step(s, Tick(WAIT_MS)) == Stored(until, since, now, None, map[0 := Done(Some(7)), 1 := waiter])
  {
    var a := Step(Refreshing(now, since, LateStore(since), waiter), Go(0, g));
    assert a.processes == map[0 := Unlocking(since, Some(7)), 1 := waiter];
  }

  lemma StoreRuns(start: int, before: seq<Event>, now: int, since: int, waiter: Process) returns (events: seq<Event>)
    requires PunctualRunOver(start, before, MIN_LIFETIME - 1) && waiter.Waiting? && waiter.until == now + WAIT_MS
    requires Run(start, before) == Refreshing(now, since, LateStore(since), waiter)
    ensures PunctualRunOver(start, events, MIN_LIFETIME - 1)
    ensures Run(start, events) == Stored(now + WAIT_MS, since, now, None, map[0 := Done(Some(7)), 1 := waiter])
  {
    var over, g := MIN_LIFETIME - 1, Good(7, 7200);
    StoreSteps(now, since, waiter, now + WAIT_MS, g);
    var s := Refreshing(now, since, LateStore(since), waiter);
    var stored := ExtendTo(start, before, Go(0, g), Step(s, Go(0, g)), over);
    var freed := ExtendTo(start, stored, Go(0, g), Stored(now, since, now, None, map[0 := Done(Some(7)), 1 := waiter]), over);
    events := ExtendTo(start, freed, Tick(WAIT_MS),
                       Stored(now + WAIT_MS, since, now, None, map[0 := Done(Some(7)), 1 := waiter]), over);
  }

  /** A token of 631 s computed in the last millisecond of a second is stale 30 s and a millisecond later. */
  lemma TokenIsStale(since: int, stored: int, lock: Option<Lock>, rest: map<nat, Process>)
    requires since % 1000 == 999
    ensures var now := since + 1 + 30 * WAIT_MS; !FreshAt(Stored(now, since, stored, lock, rest), now)
  {
  }

  /** A third process finds the token stale and takes the lock. */
  lemma ThirdTakes(start: int, before: seq<Event>, now: int, since: int, stored: int, waiter: Process)
    returns (events: seq<Event>)
    requires PunctualRunOver(start, before, MIN_LIFETIME - 1) && since % 1000 == 999 && now == since + 1 + 30 * WAIT_MS
    requires Run(start, before) == Stored(now, since, stored, None, map[0 := Done(Some(7)), 1 := waiter])
    ensures PunctualRunOver(start, events, MIN_LIFETIME - 1)
    ensures Run(start, events) ==
            WithThird(now, since, stored, Some(Lock(2, now + LOCK_MS)), waiter, Fetching(now))
  {
    var over, g := MIN_LIFETIME - 1, Good(7, 7200);
    ThirdSteps(now, since, stored, waiter, g);
    var come := ExtendTo(start, before, Get(2), WithThird(now, since, stored, None, waiter, Reading(0, 0)), over);
    var read := ExtendTo(start, come, Go(2, g), WithThird(now, since, stored, None, waiter, Locking(0, 0)), over);
    events := ExtendTo(start, read, Go(2, g),
                       WithThird(now, since, stored, Some(Lock(2, now + LOCK_MS)), waiter, Fetching(now)), over);
  }

  function WithThird(now: int, since: int, stored: int, lock: Option<Lock>, waiter: Process, third: Process): State
  {
    Stored(now, since, stored, lock, map[0 := Done(Some(7)), 1 := waiter, 2 := third])
  }

  lemma ThirdSteps(now: int, since: int, stored: int, waiter: Process, g: Reply)
    requires since % 1000 == 999 && now == since + 1 + 30 * WAIT_MS
    ensures Step(Stored(now, since, stored, None, map[0 := Done(Some(7)), 1 := waiter]), Get(2)) ==
            WithThird(now, since, stored, None, waiter, Reading(0, 0))
    ensures Step(WithThird(now, since, stored, None, waiter, Reading(0, 0)), Go(2, g)) ==
            WithThird(now, since, stored, None, waiter, Locking(0, 0))
    ensures Step(WithThird(now, since, stored, None, waiter, Locking(0, 0)), Go(2, g)) ==
            WithThird(now, since, stored, Some(Lock(2, now + LOCK_MS)), waiter, Fetching(now))
  {
    TokenIsStale(since, stored, None, map[0 := Done(Some(7)), 1 := waiter, 2 := Reading(0, 0)]);
  }

  /** With tokens of 631 s instead of more, a run that is punctual otherwise makes a caller retry a 31st
      time. */
  lemma ShorterTokensRetryMore(start: int) returns (events: seq<Event>)
    ensures PunctualRunOver(start, events, MIN_LIFETIME - 1) && 1 in Run(start, events).processes
    ensures Retries(Run(start, events).processes[1]) == 31
  {
    var fetched, since := FirstFetches(start);
    var first := since + 1;
    var waited := Waits(start, fetched, first, since, LateStore(since), 30, MIN_LIFETIME - 1);
    var waiter := Waiting(30, first, first + 30000);
    var stored := StoreRuns(start, waited, first + 29000, since, waiter);
    var taken := ThirdTakes(start, stored, first + 30000, since, first + 29000, waiter);
    events := LastRetry(start, taken, first + 30000, since, first + 29000, first);
  }

  lemma LastRetry(start: int, before: seq<Event>, now: int, since: int, stored: int, first: int) returns (events: seq<Event>)
    requires PunctualRunOver(start, before, MIN_LIFETIME - 1) && since % 1000 == 999 && now == since + 1 + 30 * WAIT_MS
    requires Run(start, before) ==
             WithThird(now, since, stored, Some(Lock(2, now + LOCK_MS)), Waiting(30, first, now), Fetching(now))
    ensures PunctualRunOver(start, events, MIN_LIFETIME - 1) && 1 in Run(start, events).processes
    ensures Retries(Run(start, events).processes[1]) == 31
  {
    var over, g, lock, f := MIN_LIFETIME - 1, Good(7, 7200), Some(Lock(2, now + LOCK_MS)), Fetching(now);
    WakeStep(now, since, stored, first, g);
    StaleStep(now, since, stored, first, g);
    LockedStep(now, since, stored, first, g);
    var woken := ExtendTo(start, before, Go(1, g), WithThird(now, since, stored, lock, Reading(30, first), f), over);
    var read := ExtendTo(start, woken, Go(1, g), WithThird(now, since, stored, lock, Locking(30, first), f), over);
    events := ExtendTo(start, read, Go(1, g),
                       WithThird(now, since, stored, lock, Waiting(31, first, now + WAIT_MS), f), over);
  }

  lemma WakeStep(now: int, since: int, stored: int, first: int, g: Reply)
    ensures var lock, f := Some(Lock(2, now + LOCK_MS)), Fetching(now);
            Step(WithThird(now, since, stored, lock, Waiting(30, first, now), f), Go(1, g)) ==
            WithThird(now, since, stored, lock, Reading(30, first), f)
  {
  }

  lemma StaleStep(now: int, since: int, stored: int, first: int, g: Reply)
    requires since % 1000 == 999 && now == since + 1 + 30 * WAIT_MS
    ensures var lock, f := Some(Lock(2, now + LOCK_MS)), Fetching(now);
            Step(WithThird(now, since, stored, lock, Reading(30, first), f), Go(1, g)) ==
            WithThird(now, since, stored, lock, Locking(30, first), f)
  {
    TokenIsStale(since, stored, Some(Lock(2, now + LOCK_MS)), map[0 := Done(Some(7)), 1 := Reading(30, first), 2 := Fetching(now)]);
  }

  lemma LockedStep(now: int, since: int, stored: int, first: int, g: Reply)
    ensures var lock, f := Some(Lock(2, now + LOCK_MS)), Fetching(now);
            Step(WithThird(now, since, stored, lock, Locking(30, first), f), Go(1, g)) ==
            WithThird(now, since, stored, lock, Waiting(31, first, now + WAIT_MS), f)
  {
  }

  // ---------- what a caller gets ----------

  /** A cached token that has not been dropped and has more than 600 s left, in whole seconds, is what a
      caller gets at once; any other sends it to the lock. */
  lemma FreshCacheIsUsed(s: State, id: nat, reply: Reply)
    requires id in s.processes && s.processes[id].Reading?
    ensures var p, t := s.processes[id], Advance(s, id, reply);
            if s.token.Some? && s.now < s.token.value.dropAt && s.now / 1000 + 600 < s.token.value.expiresAt
            then t.processes[id] == Done(Some(s.token.value.value)) && t.token == s.token && t.lock == s.lock
            else t.processes[id] == Locking(p.retries, p.first)
  {
  }

  /** For how long a stored token is used: until its lifetime has passed since it was stored, and only while
      more than 600 s are left since it was fetched. */
  lemma StoredTokenLives(s: State, id: nat, reply: Reply, x: int)
    requires id in s.processes && s.processes[id].Storing? && reply.Good?
    ensures var p := s.processes[id];
            FreshAt(Advance(s, id, reply), x) <==>
            x < s.now + 1000 * p.lifetime && x / 1000 + 600 < p.computedAt / 1000 + p.lifetime
  {
  }

  /** Event m of the run gave process q the token v for lifetime seconds, as the reply to its fetch. */
  ghost predicate Gave(start: int, events: seq<Event>, m: nat, q: nat, v: nat, lifetime: int)
  {
    m < |events| &&
    var s := Run(start, events[..m]);
    q in s.processes && s.processes[q].Fetching? && events[m] == Go(q, Good(v, lifetime))
  }

  /** Event m failed process id's own fetch or store. */
  ghost predicate FailedAt(start: int, events: seq<Event>, m: nat, id: nat)
  {
    m < |events| &&
    var s := Run(start, events[..m]);
    id in s.processes && (s.processes[id].Fetching? || s.processes[id].Storing?) && events[m] == Go(id, Bad)
  }

  /** The token was fetched at some event of the run, and expires by its own lifetime. */
  ghost predicate TokenGiven(start: int, events: seq<Event>, t: Token)
  {
    exists m: nat, q: nat, lifetime: int :: Gave(start, events, m, q, t.value, lifetime) && IsDated(start, events, m, lifetime, t)
  }

  ghost predicate IsDated(start: int, events: seq<Event>, m: nat, lifetime: int, t: Token)
    requires m < |events|
  {
    t.computedAt == Run(start, events[..m]).now && t.expiresAt == t.computedAt / 1000 + lifetime
  }

  ghost predicate ProcessGiven(start: int, events: seq<Event>, id: nat, p: Process)
  {
    match p
    case Storing(_, v, lifetime, computedAt) =>
      exists m: nat :: Gave(start, events, m, id, v, lifetime) && computedAt == Run(start, events[..m]).now
    case Unlocking(_, Some(v)) => exists m: nat, lifetime: int :: Gave(start, events, m, id, v, lifetime)
    case Unlocking(_, None) => exists m: nat :: FailedAt(start, events, m, id)
    case Done(Some(v)) => exists m: nat, q: nat, lifetime: int :: Gave(start, events, m, q, v, lifetime)
    case Done(None) => exists m: nat :: FailedAt(start, events, m, id)
    case _ => true
  }

  ghost predicate AllGiven(start: int, events: seq<Event>, s: State)
  {
    && (s.token.Some? ==> TokenGiven(start, events, s.token.value))
    && (forall id :: id in s.processes ==> ProcessGiven(start, events, id, s.processes[id]))
  }

  lemma EarlierGave(start: int, events: seq<Event>, n: nat)
    requires n <= |events|
    ensures forall m: nat :: m < n ==> events[..n][..m] == events[..m]
    ensures forall m: nat, q: nat, v: nat, lifetime: int ::
              Gave(start, events[..n], m, q, v, lifetime) ==> Gave(start, events, m, q, v, lifetime)
    ensures forall m: nat, id: nat :: FailedAt(start, events[..n], m, id) ==> FailedAt(start, events, m, id)
  {
    assert forall m: nat :: m < n ==> events[..n][..m] == events[..m];
  }

  lemma TokenStaysGiven(start: int, events: seq<Event>, n: nat, t: Token)
    requires n <= |events| && TokenGiven(start, events[..n], t)
    ensures TokenGiven(start, events, t)
  {
    EarlierGave(start, events, n);
    var m: nat, q: nat, lifetime: int :| Gave(start, events[..n], m, q, t.value, lifetime) && IsDated(start, events[..n], m, lifetime, t);
    assert Gave(start, events, m, q, t.value, lifetime) && IsDated(start, events, m, lifetime, t);
  }

  lemma ProcessStaysGiven(start: int, events: seq<Event>, n: nat, id: nat, p: Process)
    requires n <= |events| && ProcessGiven(start, events[..n], id, p)
    ensures ProcessGiven(start, events, id, p)
  {
    EarlierGave(start, events, n);
  }

  lemma GoKeepsGiven(start: int, events: seq<Event>)
    requires events != [] && events[|events| - 1].Go?
    requires var n := |events| - 1; AllGiven(start, events, Run(start, events[..n])) &&
                                    events[n].id in Run(start, events[..n]).processes
    ensures AllGiven(start, events, Run(start, events))
  {
    var n := |events| - 1;
    var s, e := Run(start, events[..n]), events[n];
    var p := s.processes[e.id];
    assert ProcessGiven(start, events, e.id, p);
    if p.Fetching? {
      if e.reply.Good? {
        assert Gave(start, events, n, e.id, e.reply.value, e.reply.lifetime);
      } else {
        assert FailedAt(start, events, n, e.id);
      }
    } else if p.Storing? {
      if e.reply.Good? {
        var m: nat :| Gave(start, events, m, e.id, p.value, p.lifetime) && p.computedAt == Run(start, events[..m]).now;
        assert IsDated(start, events, m, p.lifetime, Run(start, events).token.value);
      } else {
        assert FailedAt(start, events, n, e.id);
      }
    }
  }

  lemma {:induction false} RunGiven(start: int, events: seq<Event>)
    ensures AllGiven(start, events, Run(start, events))
  {
    if events != [] {
      var n := |events| - 1;
      var s, e := Run(start, events[..n]), events[n];
      RunGiven(start, events[..n]);
      if s.token.Some? {
        TokenStaysGiven(start, events, n, s.token.value);
      }
      forall id | id in s.processes
        ensures ProcessGiven(start, events, id, s.processes[id])
      {
        ProcessStaysGiven(start, events, n, id, s.processes[id]);
      }
      if e.Go? && e.id in s.processes {
        GoKeepsGiven(start, events);
      }
    }
  }

  /** In every run, whoever ends with a token has one that the API gave to some fetch of the run, and
      whoever ends without one had a fetch or store of its own fail. */
  lemma ReturnedTokensAreGiven(start: int, events: seq<Event>, id: nat)
    requires id in Run(start, events).processes && Run(start, events).processes[id].Done?
    ensures match Run(start, events).processes[id].result
            case Some(v) => exists m: nat, q: nat, lifetime: int :: Gave(start, events, m, q, v, lifetime)
            case None => exists m: nat :: FailedAt(start, events, m, id)
  {
    RunGiven(start, events);
    assert ProcessGiven(start, events, id, Run(start, events).processes[id]);
  }

  /** So in a punctual run nobody ends without a token. */
  lemma PunctualCallersGetTokens(start: int, events: seq<Event>, id: nat)
    requires PunctualRun(start, events) && id in Run(start, events).processes && Run(start, events).processes[id].Done?
    ensures Run(start, events).processes[id].result.Some?
  {
    ReturnedTokensAreGiven(start, events, id);
    assert forall m: nat :: m < |events| ==> PunctualOver(Run(start, events[..m]), events[m], MIN_LIFETIME);
  }

  /** A refresher ends with the token of its own fetch. */
  lemma RefreshersGetTheirOwn(start: int, events: seq<Event>, id: nat, reply: Reply)
    requires id in Run(start, events).processes && Run(start, events).processes[id].Unlocking?
    ensures var result := Run(start, events).processes[id].result;
            && Run(start, events + [Go(id, reply)]).processes[id] == Done(result)
            && (result.Some? ==> exists m: nat, lifetime: int :: Gave(start, events, m, id, result.value, lifetime))
  {
    RunGiven(start, events);
    RunAppend(start, events, Go(id, reply));
    assert ProcessGiven(start, events, id, Run(start, events).processes[id]);
  }

  /** Whoever gets a token from the cache gets one with more than 600 s of the lifetime that the API gave
      it left, counting whole seconds since it was fetched. */
  lemma CachedTokensHaveTimeLeft(start: int, events: seq<Event>, id: nat, reply: Reply)
    returns (m: nat, q: nat, v: nat, lifetime: int)
    requires id in Run(start, events).processes && Run(start, events).processes[id].Reading?
    requires Run(start, events + [Go(id, reply)]).processes[id].Done?
    ensures Run(start, events + [Go(id, reply)]).processes[id] == Done(Some(v))
    ensures Gave(start, events, m, q, v, lifetime)
    ensures Run(start, events).now / 1000 + 600 < Run(start, events[..m]).now / 1000 + lifetime
  {
    RunAppend(start, events, Go(id, reply));
    RunGiven(start, events);
    var t := Run(start, events).token.value;
    assert TokenGiven(start, events, t);
    v := t.value;
    m, q, lifetime :| Gave(start, events, m, q, t.value, lifetime) && IsDated(start, events, m, lifetime, t);
  }

  // ---------- what a forced refresh gets ----------

  /** Event m of the run stored the token v. */
  ghost predicate StoredAt(start: int, events: seq<Event>, m: nat, v: nat)
  {
    m < |events| && events[m].Go? && events[m].reply.Good? &&
    var s := Run(start, events[..m]);
    events[m].id in s.processes && s.processes[events[m].id].Storing? && s.processes[events[m].id].value == v
  }

  ghost predicate StoredAfter(start: int, events: seq<Event>, n: nat, v: nat)
  {
    exists m: nat :: m > n && StoredAt(start, events, m, v)
  }

  /** Event n is the DEL of a forced refresh of id. */
  ghost predicate Forces(start: int, events: seq<Event>, n: nat, id: nat)
  {
    n < |events| && events[n].Go? && events[n].id == id &&
    id in Run(start, events[..n]).processes && Run(start, events[..n]).processes[id].Forcing?
  }

  ghost predicate NewSince(start: int, events: seq<Event>, n: nat, id: nat, s: State)
  {
    && (s.token.Some? ==> StoredAfter(start, events, n, s.token.value.value))
    && (id in s.processes ==> ProcessNew(start, events, n, s.processes[id]))
  }

  ghost predicate ProcessNew(start: int, events: seq<Event>, n: nat, p: Process)
  {
    match p
    case Unlocking(_, Some(v)) => StoredAfter(start, events, n, v)
    case Done(Some(v)) => StoredAfter(start, events, n, v)
    case _ => true
  }

  lemma StoredStays(start: int, events: seq<Event>, k: nat, n: nat, v: nat)
    requires k <= |events| && StoredAfter(start, events[..k], n, v)
    ensures StoredAfter(start, events, n, v)
  {
    var m: nat :| m > n && StoredAt(start, events[..k], m, v);
    assert events[..k][..m] == events[..m];
    assert StoredAt(start, events, m, v);
  }

  lemma {:induction false} NothingOlder(start: int, events: seq<Event>, n: nat, id: nat)
    requires Forces(start, events, n, id)
    ensures NewSince(start, events, n, id, Run(start, events))
    decreases |events|
  {
    var last := |events| - 1;
    var s, e := Run(start, events[..last]), events[last];
    if n < last {
      assert events[..last][..n] == events[..n];
      NothingOlder(start, events[..last], n, id);
      NewStays(start, events, last, n, id, s);
      if e.Go? && e.id in s.processes && s.processes[e.id].Storing? && e.reply.Good? {
        assert StoredAt(start, events, last, s.processes[e.id].value);
      }
    }
  }

  lemma NewStays(start: int, events: seq<Event>, k: nat, n: nat, id: nat, s: State)
    requires k <= |events| && NewSince(start, events[..k], n, id, s)
    ensures NewSince(start, events, n, id, s)
  {
    forall v | StoredAfter(start, events[..k], n, v)
      ensures StoredAfter(start, events, n, v)
    {
      StoredStays(start, events, k, n, v);
    }
  }

  /** A forced refresh deletes the cached token and goes straight to the lock. */
  lemma ForcingDeletesToken(s: State, id: nat, reply: Reply)
    requires id in s.processes && s.processes[id].Forcing?
    ensures var t := Advance(s, id, reply);
            t.token == None && t.processes[id] == Locking(0, 0) && t.lock == s.lock
  {
  }

  /** A forced refresh never ends with a token cached before its DEL: what it gets was stored afterwards, by
      itself or by another. */
  lemma ForcedTokensAreNew(start: int, events: seq<Event>, n: nat, id: nat, v: nat)
    requires Forces(start, events, n, id)
    requires id in Run(start, events).processes && Run(start, events).processes[id] == Done(Some(v))
    ensures StoredAfter(start, events, n, v)
  {
    NothingOlder(start, events, n, id);
  }
}

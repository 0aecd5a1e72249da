/** What every step of every interleaving keeps: each leased address and each TAP name has exactly
    one holder, and the chain holds exactly the rules of the holders plus the recorded left-overs. */
module Invariant {
  import opened Numerals
  import opened Wrappers
  import opened AddressPool
  import opened Protocol

  ghost function HoldingOf(s: System, h: Holder): Holding
  {
    match h
    case OfCall(id) => if id in s.calls then CallHolding(s.calls[id]) else Nothing
    case OfInstance(user) => if user in s.world.instances then Full(s.world.instances[user]) else Nothing
    case OfOverwritten(i) => if i in s.past.overwritten then Full(i) else Nothing
  }

  /** m is exactly the inverse of the partial function f: every key of m is what its holder holds,
      and whoever holds a key is the one m names. */
  ghost predicate Inverse(m: map<string, Holder>, f: Holder -> Option<string>)
  {
    && (forall k :: k in m ==> f(m[k]) == Some(k))
    && (forall h :: f(h).Some? ==> f(h).value in m && m[f(h).value] == h)
  }

  lemma InverseSame(m: map<string, Holder>, f: Holder -> Option<string>, g: Holder -> Option<string>)
    requires Inverse(m, f) && forall h :: g(h) == f(h)
    ensures Inverse(m, g)
  {
  }

  lemma InverseGain(m: map<string, Holder>, f: Holder -> Option<string>, g: Holder -> Option<string>, h0: Holder)
    requires Inverse(m, f) && f(h0).None? && (forall h :: h != h0 ==> g(h) == f(h))
    requires g(h0).Some? && g(h0).value !in m
    ensures Inverse(m[g(h0).value := h0], g)
  {
  }

  lemma InverseLose(m: map<string, Holder>, f: Holder -> Option<string>, g: Holder -> Option<string>, h0: Holder)
    requires Inverse(m, f) && (forall h :: h != h0 ==> g(h) == f(h))
    requires f(h0).Some? && g(h0).None?
    ensures Inverse(m - {f(h0).value}, g)
  {
  }

  lemma InverseMove(m: map<string, Holder>, f: Holder -> Option<string>, g: Holder -> Option<string>,
                    h0: Holder, h1: Holder)
    requires Inverse(m, f) && (forall h :: h != h0 && h != h1 ==> g(h) == f(h))
    requires f(h0).Some? && f(h1).None? && g(h0).None? && g(h1) == f(h0)
    ensures Inverse(m[f(h0).value := h1], g)
  {
  }

  /** h0 hands over to h1, which hands over to h2. */
  lemma InverseShift(m: map<string, Holder>, f: Holder -> Option<string>, g: Holder -> Option<string>,
                     h0: Holder, h1: Holder, h2: Holder)
    requires Inverse(m, f) && (forall h :: h != h0 && h != h1 && h != h2 ==> g(h) == f(h))
    requires h0 != h1 && h1 != h2 && h0 != h2
    requires f(h0).Some? && f(h1).Some? && g(h0).None? && g(h1) == f(h0) && g(h2) == f(h1)
    requires f(h2).None? || f(h2) == f(h1)
    ensures Inverse(m[f(h1).value := h2][f(h0).value := h1], g)
  {
  }

  ghost function AddressOf(g: Holding): Option<string>
  {
    if g.Holds? then Some(g.ip) else None
  }

  ghost function TapOf(g: Holding): Option<string>
  {
    if g.Holds? then g.tap else None
  }

  ghost function AddressIn(s: System): Holder -> Option<string>
  {
    h => AddressOf(HoldingOf(s, h))
  }

  ghost function TapIn(s: System): Holder -> Option<string>
  {
    h => TapOf(HoldingOf(s, h))
  }

  ghost predicate AddressHeld(cfg: Config, s: System)
  {
    && Inverse(s.past.holder, AddressIn(s))
    && s.past.holder.Keys == s.world.leases.Keys
    && (forall ip :: ip in s.world.leases ==> ip in cfg.pool)
  }

  ghost predicate HasAt(m: map<string, Holder>, u: Holder -> bool, x: string)
  {
    x in m && u(m[x])
  }

  lemma MoveKeepsAt(m: map<string, Holder>, f: Holder -> Option<string>, u: Holder -> bool, v: Holder -> bool,
                      h0: Holder, h1: Holder)
    requires Inverse(m, f) && f(h0).Some? && f(h1).None? && v(h1) == u(h0)
    requires forall h :: h != h0 && h != h1 ==> v(h) == u(h)
    ensures forall x :: HasAt(m[f(h0).value := h1], v, x) == HasAt(m, u, x)
  {
  }

  lemma LoseKeepsAt(m: map<string, Holder>, f: Holder -> Option<string>, u: Holder -> bool, v: Holder -> bool,
                      h0: Holder)
    requires Inverse(m, f) && f(h0).Some? && forall h :: h != h0 ==> v(h) == u(h)
    ensures forall x :: x != f(h0).value ==> HasAt(m - {f(h0).value}, v, x) == HasAt(m, v, x) == HasAt(m, u, x)
    ensures HasAt(m, u, f(h0).value) == u(h0) && HasAt(m, v, f(h0).value) == v(h0)
  {
  }

  lemma GainKeepsAt(m: map<string, Holder>, u: Holder -> bool, v: Holder -> bool, h0: Holder, x: string)
    requires x !in m && !v(h0) && forall h :: v(h) == u(h)
    ensures forall y :: HasAt(m[x := h0], v, y) == HasAt(m, u, y)
  {
  }

  lemma ShiftKeepsAt(m: map<string, Holder>, f: Holder -> Option<string>, u: Holder -> bool, v: Holder -> bool,
                       h0: Holder, h1: Holder, h2: Holder)
    requires Inverse(m, f) && f(h0).Some? && f(h1).Some? && v(h1) == u(h0) && v(h2) == u(h1)
    requires f(h2).None? || f(h2) == f(h1)
    requires h0 != h1 && h1 != h2 && h0 != h2
    requires forall h :: h != h0 && h != h1 && h != h2 ==> v(h) == u(h)
    ensures forall x :: HasAt(m[f(h1).value := h2][f(h0).value := h1], v, x) == HasAt(m, u, x)
  {
  }

  ghost function LiveFor(s: System): Holder -> bool
  {
    h => HoldingOf(s, h).Holds? && HoldingOf(s, h).live
  }

  ghost predicate Live(s: System, t: string)
  {
    HasAt(s.past.tapHolder, LiveFor(s), t)
  }

  /** The devices that exist are those of the holders and the orphans. */
  ghost predicate DevicesHeld(s: System)
  {
    forall x :: x in s.world.taps <==> Live(s, x) || x in s.past.orphans
  }

  ghost predicate NamesIssued(s: System)
  {
    && (forall t :: t in s.past.tapHolder ==> t in s.past.issued)
    && (forall t :: t in s.past.orphans ==> t in s.past.issued && t !in s.past.tapHolder)
  }

  ghost predicate TapHeld(s: System)
  {
    && Inverse(s.past.tapHolder, TapIn(s))
    && DevicesHeld(s)
    && NamesIssued(s)
    && |s.past.issued| + 1 == s.world.nextIdx
    && (forall i :: 0 <= i < |s.past.issued| ==> s.past.issued[i] == TapName(i + 1))
  }

  /** The holders a step of call id can affect. */
  ghost predicate Touched(s: System, id: nat, h: Holder)
    requires id in s.calls
  {
    || h == OfCall(id)
    || ((s.calls[id].Register? || s.calls[id].TakeInstance?) && h == OfInstance(s.calls[id].user))
    || (&& s.calls[id].Register? && s.calls[id].user in s.world.instances
        && h == OfOverwritten(s.world.instances[s.calls[id].user]))
  }

  lemma AdvanceTouches(cfg: Config, s: System, id: nat, ok: bool)
    requires id in s.calls
    ensures var t := Step(cfg, s, Advance(id, ok)); forall h :: !Touched(s, id, h) ==> HoldingOf(t, h) == HoldingOf(s, h)
  {
  }

  /** The holdings of the holders involved in a registration, before and after. */
  lemma RegisterHoldings(cfg: Config, s: System, id: nat, ok: bool)
    requires id in s.calls && s.calls[id].Register?
    ensures var c, t := s.calls[id], Step(cfg, s, Advance(id, ok));
            && HoldingOf(s, OfCall(id)) == HoldingOf(t, OfInstance(c.user)) == Full(Instance(c.ip, c.tap))
            && HoldingOf(t, OfCall(id)) == Nothing
            && (c.user in s.world.instances ==>
                  var i := s.world.instances[c.user];
                  HoldingOf(s, OfInstance(c.user)) == HoldingOf(t, OfOverwritten(i)) == Full(i))
            && (c.user !in s.world.instances ==> HoldingOf(s, OfInstance(c.user)) == Nothing)
  {
  }

  lemma TakeInstanceHoldings(cfg: Config, s: System, id: nat, ok: bool)
    requires id in s.calls && s.calls[id].TakeInstance? && s.calls[id].user in s.world.instances
    ensures var c, t := s.calls[id], Step(cfg, s, Advance(id, ok));
            && HoldingOf(s, OfInstance(c.user)) == HoldingOf(t, OfCall(id)) == Full(s.world.instances[c.user])
            && HoldingOf(s, OfCall(id)) == HoldingOf(t, OfInstance(c.user)) == Nothing
  {
  }

  predicate MovesAddress(w: World, c: Call)
  {
    c.Allocate? || c.ReleaseAddress? || c.Register? || (c.TakeInstance? && c.user in w.instances)
  }

  predicate MovesTap(w: World, c: Call)
  {
    c.TakeTapIndex? || c.UndoTap? || c.DeleteTap? || c.Register? || (c.TakeInstance? && c.user in w.instances)
  }

  lemma OtherStepsKeepAddress(cfg: Config, w: World, c: Call, ok: bool)
    requires !MovesAddress(w, c)
    ensures AddressOf(CallHolding(Next(cfg, w, c, ok))) == AddressOf(CallHolding(c))
  {
  }

  lemma OtherStepsKeepLeases(cfg: Config, w: World, h: History, id: nat, c: Call, ok: bool)
    requires !MovesAddress(w, c)
    ensures Remember(cfg, w, h, id, c, ok).holder == h.holder && Effect(cfg, w, c, ok).leases == w.leases
  {
    OtherStepsKeepHolder(cfg, w, h, id, c, ok);
    OtherEffectsKeepLeases(cfg, w, c, ok);
  }

  lemma OtherStepsKeepHolder(cfg: Config, w: World, h: History, id: nat, c: Call, ok: bool)
    requires !MovesAddress(w, c)
    ensures Remember(cfg, w, h, id, c, ok).holder == h.holder
  {
  }

  lemma OtherEffectsKeepLeases(cfg: Config, w: World, c: Call, ok: bool)
    requires !c.Allocate? && !c.ReleaseAddress?
    ensures Effect(cfg, w, c, ok).leases == w.leases
  {
  }

  lemma OtherStepsKeepTap(cfg: Config, w: World, c: Call, ok: bool)
    requires !MovesTap(w, c)
    ensures TapOf(CallHolding(Next(cfg, w, c, ok))) == TapOf(CallHolding(c))
  {
  }

  lemma OtherStepsKeepTapHolder(cfg: Config, w: World, h: History, id: nat, c: Call, ok: bool)
    requires !MovesTap(w, c)
    ensures Remember(cfg, w, h, id, c, ok).tapHolder == h.tapHolder
  {
  }

  /** The state after an event of call id, and its index of addresses and of TAP names. */
  ghost predicate Indexed(s: System)
  {
    Inverse(s.past.holder, AddressIn(s)) && Inverse(s.past.tapHolder, TapIn(s))
  }

  lemma RegisterKeepsIndex(cfg: Config, s: System, id: nat, ok: bool)
    requires Indexed(s) && id in s.calls && s.calls[id].Register?
    ensures Indexed(Step(cfg, s, Advance(id, ok)))
  {
    AdvanceTouches(cfg, s, id, ok);
    RegisterHoldings(cfg, s, id, ok);
    var c, t := s.calls[id], Step(cfg, s, Advance(id, ok));
    if c.user in s.world.instances {
      var over := OfOverwritten(s.world.instances[c.user]);
      InverseShift(s.past.holder, AddressIn(s), AddressIn(t), OfCall(id), OfInstance(c.user), over);
      InverseShift(s.past.tapHolder, TapIn(s), TapIn(t), OfCall(id), OfInstance(c.user), over);
    } else {
      InverseMove(s.past.holder, AddressIn(s), AddressIn(t), OfCall(id), OfInstance(c.user));
      InverseMove(s.past.tapHolder, TapIn(s), TapIn(t), OfCall(id), OfInstance(c.user));
    }
  }

  lemma TakeInstanceKeepsIndex(cfg: Config, s: System, id: nat, ok: bool)
    requires Indexed(s) && id in s.calls && s.calls[id].TakeInstance? && s.calls[id].user in s.world.instances
    ensures Indexed(Step(cfg, s, Advance(id, ok)))
  {
    AdvanceTouches(cfg, s, id, ok);
    TakeInstanceHoldings(cfg, s, id, ok);
    var c, t := s.calls[id], Step(cfg, s, Advance(id, ok));
    InverseMove(s.past.holder, AddressIn(s), AddressIn(t), OfInstance(c.user), OfCall(id));
    InverseMove(s.past.tapHolder, TapIn(s), TapIn(t), OfInstance(c.user), OfCall(id));
  }

  lemma AllocationMoves(cfg: Config, w: World, h: History, id: nat, c: Call, ok: bool)
    requires c.Allocate?
    ensures var free := FirstFree(cfg.pool, 0, w.leases.Keys);
            && AddressOf(CallHolding(c)) == None && AddressOf(CallHolding(Next(cfg, w, c, ok))) == free
            && Remember(cfg, w, h, id, c, ok).holder == (if free.Some? then h.holder[free.value := OfCall(id)] else h.holder)
  {
  }

  lemma AllocateKeepsAddressIndex(cfg: Config, s: System, id: nat, ok: bool)
    requires Inverse(s.past.holder, AddressIn(s)) && id in s.calls && s.calls[id].Allocate?
    requires s.past.holder.Keys == s.world.leases.Keys
    ensures var t := Step(cfg, s, Advance(id, ok)); Inverse(t.past.holder, AddressIn(t))
  {
    AdvanceTouches(cfg, s, id, ok);
    var t := Step(cfg, s, Advance(id, ok));
    AllocationMoves(cfg, s.world, s.past, id, s.calls[id], ok);
    FirstFreeIsLowest(cfg.pool, 0, s.world.leases.Keys);
    if FirstFree(cfg.pool, 0, s.world.leases.Keys).Some? {
      InverseGain(s.past.holder, AddressIn(s), AddressIn(t), OfCall(id));
    } else {
      InverseSame(s.past.holder, AddressIn(s), AddressIn(t));
    }
  }

  lemma ReleaseKeepsAddressIndex(cfg: Config, s: System, id: nat, ok: bool)
    requires Inverse(s.past.holder, AddressIn(s)) && id in s.calls && s.calls[id].ReleaseAddress?
    ensures var t := Step(cfg, s, Advance(id, ok)); Inverse(t.past.holder, AddressIn(t))
  {
    AdvanceTouches(cfg, s, id, ok);
    InverseLose(s.past.holder, AddressIn(s), AddressIn(Step(cfg, s, Advance(id, ok))), OfCall(id));
  }

  lemma NewTapKeepsTapIndex(cfg: Config, s: System, id: nat, ok: bool)
    requires Inverse(s.past.tapHolder, TapIn(s)) && id in s.calls && s.calls[id].TakeTapIndex?
    requires TapName(s.world.nextIdx) !in s.past.tapHolder
    ensures var t := Step(cfg, s, Advance(id, ok)); Inverse(t.past.tapHolder, TapIn(t))
  {
    AdvanceTouches(cfg, s, id, ok);
    InverseGain(s.past.tapHolder, TapIn(s), TapIn(Step(cfg, s, Advance(id, ok))), OfCall(id));
  }

  lemma DeletedTapKeepsTapIndex(cfg: Config, s: System, id: nat, ok: bool)
    requires Inverse(s.past.tapHolder, TapIn(s)) && id in s.calls
    requires s.calls[id].UndoTap? || s.calls[id].DeleteTap?
    ensures var t := Step(cfg, s, Advance(id, ok)); Inverse(t.past.tapHolder, TapIn(t))
  {
    AdvanceTouches(cfg, s, id, ok);
    InverseLose(s.past.tapHolder, TapIn(s), TapIn(Step(cfg, s, Advance(id, ok))), OfCall(id));
  }

  lemma AdvanceKeepsAddressIndex(cfg: Config, s: System, id: nat, ok: bool)
    requires AddressHeld(cfg, s) && Indexed(s) && id in s.calls
    ensures var t := Step(cfg, s, Advance(id, ok)); Inverse(t.past.holder, AddressIn(t))
  {
    var c := s.calls[id];
    if !MovesAddress(s.world, c) {
      AdvanceTouches(cfg, s, id, ok);
      OtherStepsKeepAddress(cfg, s.world, c, ok);
      OtherStepsKeepLeases(cfg, s.world, s.past, id, c, ok);
      InverseSame(s.past.holder, AddressIn(s), AddressIn(Step(cfg, s, Advance(id, ok))));
    } else if c.Allocate? {
      AllocateKeepsAddressIndex(cfg, s, id, ok);
    } else if c.ReleaseAddress? {
      ReleaseKeepsAddressIndex(cfg, s, id, ok);
    } else if c.Register? {
      RegisterKeepsIndex(cfg, s, id, ok);
    } else {
      TakeInstanceKeepsIndex(cfg, s, id, ok);
    }
  }

  lemma AdvanceKeepsTapIndex(cfg: Config, s: System, id: nat, ok: bool)
    requires Indexed(s) && id in s.calls && TapName(s.world.nextIdx) !in s.past.tapHolder
    ensures var t := Step(cfg, s, Advance(id, ok)); Inverse(t.past.tapHolder, TapIn(t))
  {
    var c := s.calls[id];
    if !MovesTap(s.world, c) {
      AdvanceTouches(cfg, s, id, ok);
      OtherStepsKeepTap(cfg, s.world, c, ok);
      OtherStepsKeepTapHolder(cfg, s.world, s.past, id, c, ok);
      InverseSame(s.past.tapHolder, TapIn(s), TapIn(Step(cfg, s, Advance(id, ok))));
    } else if c.TakeTapIndex? {
      NewTapKeepsTapIndex(cfg, s, id, ok);
    } else if c.Register? {
      RegisterKeepsIndex(cfg, s, id, ok);
    } else if c.TakeInstance? {
      TakeInstanceKeepsIndex(cfg, s, id, ok);
    } else {
      DeletedTapKeepsTapIndex(cfg, s, id, ok);
    }
  }

  lemma AdvanceKeepsHolderKeys(cfg: Config, s: System, id: nat, ok: bool)
    requires AddressHeld(cfg, s) && id in s.calls
    ensures var t := Step(cfg, s, Advance(id, ok)); t.past.holder.Keys == t.world.leases.Keys
  {
    var c := s.calls[id];
    if !MovesAddress(s.world, c) {
      OtherStepsKeepLeases(cfg, s.world, s.past, id, c, ok);
    } else if c.Register? || c.TakeInstance? {
      if c.Register? {
        assert AddressIn(s)(OfCall(id)) == Some(c.ip);
      }
      if c.user in s.world.instances {
        assert AddressIn(s)(OfInstance(c.user)) == Some(s.world.instances[c.user].ip);
      }
      HandoversKeepKeys(cfg, s.world, s.past, id, c, ok);
    }
  }

  lemma HandoversKeepKeys(cfg: Config, w: World, h: History, id: nat, c: Call, ok: bool)
    requires c.Register? || c.TakeInstance?
    requires c.Register? ==> c.ip in h.holder
    requires c.user in w.instances ==> w.instances[c.user].ip in h.holder
    ensures Remember(cfg, w, h, id, c, ok).holder.Keys == h.holder.Keys && Effect(cfg, w, c, ok).leases == w.leases
  {
  }

  lemma AdvanceKeepsPool(cfg: Config, s: System, id: nat, ok: bool)
    requires id in s.calls && forall ip :: ip in s.world.leases ==> ip in cfg.pool
    ensures forall ip :: ip in Step(cfg, s, Advance(id, ok)).world.leases ==> ip in cfg.pool
  {
    if s.calls[id].Allocate? {
      FirstFreeIsLowest(cfg.pool, 0, s.world.leases.Keys);
    } else if MovesAddress(s.world, s.calls[id]) {
    } else {
      OtherStepsKeepLeases(cfg, s.world, s.past, id, s.calls[id], ok);
    }
  }

  lemma NextNameIsNew(s: System)
    requires TapHeld(s)
    ensures TapName(s.world.nextIdx) !in s.past.issued
  {
    forall i | 0 <= i < |s.past.issued|
      ensures s.past.issued[i] != TapName(s.world.nextIdx)
    {
      if TapName(i + 1) == TapName(s.world.nextIdx) {
        TapNameInjective(i + 1, s.world.nextIdx);
      }
    }
  }

  lemma AdvanceKeepsIssued(cfg: Config, s: System, id: nat, ok: bool)
    requires TapHeld(s) && id in s.calls
    ensures var t := Step(cfg, s, Advance(id, ok));
            && |t.past.issued| + 1 == t.world.nextIdx
            && (forall i :: 0 <= i < |t.past.issued| ==> t.past.issued[i] == TapName(i + 1))
  {
    var t := Step(cfg, s, Advance(id, ok));
    if s.calls[id].TakeTapIndex? {
      assert t.past.issued == s.past.issued + [TapName(s.world.nextIdx)];
    } else {
      OtherStepsIssueNothing(cfg, s.world, s.past, id, s.calls[id], ok);
    }
  }

  lemma OtherStepsIssueNothing(cfg: Config, w: World, h: History, id: nat, c: Call, ok: bool)
    requires !c.TakeTapIndex?
    ensures Remember(cfg, w, h, id, c, ok).issued == h.issued && Effect(cfg, w, c, ok).nextIdx == w.nextIdx
  {
  }

  lemma AdvanceKeepsNamesIssued(cfg: Config, s: System, id: nat, ok: bool)
    requires TapHeld(s) && id in s.calls
    ensures NamesIssued(Step(cfg, s, Advance(id, ok)))
  {
    var c, t := s.calls[id], Step(cfg, s, Advance(id, ok));
    if c.TakeTapIndex? {
      NextNameIsNew(s);
      assert t.past.issued[|s.past.issued|] == TapName(s.world.nextIdx);
      assert forall x :: x in s.past.issued ==> x in t.past.issued;
    } else if c.UndoTap? || c.DeleteTap? {
      assert TapIn(s)(OfCall(id)) == Some(c.tap);
    } else if c.Register? {
      RegisterHoldings(cfg, s, id, ok);
      assert TapIn(s)(OfCall(id)) == Some(c.tap);
      assert c.user in s.world.instances ==> TapIn(s)(OfInstance(c.user)) == Some(s.world.instances[c.user].tap);
      assert t.past.tapHolder.Keys == s.past.tapHolder.Keys;
    } else if c.TakeInstance? && c.user in s.world.instances {
      TakeInstanceHoldings(cfg, s, id, ok);
      assert TapIn(s)(OfInstance(c.user)) == Some(s.world.instances[c.user].tap);
      assert t.past.tapHolder.Keys == s.past.tapHolder.Keys;
    } else {
      OtherStepsKeepTapHolder(cfg, s.world, s.past, id, c, ok);
      assert t.past.issued == s.past.issued && t.past.orphans == s.past.orphans;
    }
  }

  lemma OtherStepsKeepDevices(cfg: Config, w: World, h: History, id: nat, c: Call, ok: bool)
    requires !MovesTap(w, c) && !c.TapCommand?
    ensures Effect(cfg, w, c, ok).taps == w.taps && Remember(cfg, w, h, id, c, ok).orphans == h.orphans
  {
  }

  ghost predicate LiveIn(g: Holding)
  {
    g.Holds? && g.live
  }

  lemma OtherStepsKeepLive(cfg: Config, w: World, c: Call, ok: bool)
    requires !MovesTap(w, c) && !c.TapCommand? && TapOf(CallHolding(c)).Some?
    ensures LiveIn(CallHolding(Next(cfg, w, c, ok))) == LiveIn(CallHolding(c))
  {
  }

  lemma MoveKeepsDevices(cfg: Config, s: System, id: nat, ok: bool)
    requires TapHeld(s) && id in s.calls
    requires s.calls[id].Register? || (s.calls[id].TakeInstance? && s.calls[id].user in s.world.instances)
    ensures DevicesHeld(Step(cfg, s, Advance(id, ok)))
  {
    var c, t := s.calls[id], Step(cfg, s, Advance(id, ok));
    var m, f, u, v := s.past.tapHolder, TapIn(s), LiveFor(s), LiveFor(t);
    AdvanceTouches(cfg, s, id, ok);
    if c.TakeInstance? {
      TakeInstanceHoldings(cfg, s, id, ok);
      MoveKeepsAt(m, f, u, v, OfInstance(c.user), OfCall(id));
    } else {
      RegisterHoldings(cfg, s, id, ok);
      if c.user in s.world.instances {
        ShiftKeepsAt(m, f, u, v, OfCall(id), OfInstance(c.user), OfOverwritten(s.world.instances[c.user]));
      } else {
        MoveKeepsAt(m, f, u, v, OfCall(id), OfInstance(c.user));
      }
    }
  }

  lemma TapCommandKeepsDevices(cfg: Config, s: System, id: nat, ok: bool)
    requires TapHeld(s) && id in s.calls && s.calls[id].TapCommand?
    ensures DevicesHeld(Step(cfg, s, Advance(id, ok)))
  {
    AdvanceTouches(cfg, s, id, ok);
    TapCommandMoves(cfg, s.world, s.past, id, s.calls[id], ok);
    LoseKeepsAt(s.past.tapHolder, TapIn(s), LiveFor(s), LiveFor(Step(cfg, s, Advance(id, ok))), OfCall(id));
  }

  lemma TapCommandMoves(cfg: Config, w: World, h: History, id: nat, c: Call, ok: bool)
    requires c.TapCommand?
    ensures Remember(cfg, w, h, id, c, ok) == h
    ensures LiveIn(CallHolding(c)) == (c.step > 0) && LiveIn(CallHolding(Next(cfg, w, c, ok))) == (ok || c.step > 0)
    ensures Effect(cfg, w, c, ok).taps == if ok && c.step == 0 then w.taps + {c.tap} else w.taps
    ensures TapOf(CallHolding(c)) == TapOf(CallHolding(Next(cfg, w, c, ok))) == Some(c.tap)
  {
  }

  lemma TapDeletionKeepsDevices(cfg: Config, s: System, id: nat, ok: bool)
    requires TapHeld(s) && id in s.calls && (s.calls[id].UndoTap? || s.calls[id].DeleteTap?)
    ensures DevicesHeld(Step(cfg, s, Advance(id, ok)))
  {
    AdvanceTouches(cfg, s, id, ok);
    TapDeletionMoves(cfg, s.world, s.past, id, s.calls[id], ok);
    LoseKeepsAt(s.past.tapHolder, TapIn(s), LiveFor(s), LiveFor(Step(cfg, s, Advance(id, ok))), OfCall(id));
  }

  lemma TapDeletionMoves(cfg: Config, w: World, h: History, id: nat, c: Call, ok: bool)
    requires c.UndoTap? || c.DeleteTap?
    ensures TapOf(CallHolding(c)) == Some(c.tap) && TapOf(CallHolding(Next(cfg, w, c, ok))) == None
    ensures LiveIn(CallHolding(c)) == (c.DeleteTap? || c.step > 0) && !LiveIn(CallHolding(Next(cfg, w, c, ok)))
    ensures Effect(cfg, w, c, ok).taps == if ok then w.taps - {c.tap} else w.taps
    ensures var h' := Remember(cfg, w, h, id, c, ok);
            && h'.tapHolder == h.tapHolder - {c.tap}
            && h'.orphans == if !ok && LiveIn(CallHolding(c)) then h.orphans + {c.tap} else h.orphans
  {
  }

  lemma OtherStepsKeepDevicesHeld(cfg: Config, s: System, id: nat, ok: bool)
    requires TapHeld(s) && id in s.calls && !MovesTap(s.world, s.calls[id]) && !s.calls[id].TapCommand?
    ensures DevicesHeld(Step(cfg, s, Advance(id, ok)))
  {
    var c, t := s.calls[id], Step(cfg, s, Advance(id, ok));
    AdvanceTouches(cfg, s, id, ok);
    OtherStepsKeepDevices(cfg, s.world, s.past, id, c, ok);
    OtherStepsKeepTapHolder(cfg, s.world, s.past, id, c, ok);
    if TapOf(CallHolding(c)).Some? {
      OtherStepsKeepLive(cfg, s.world, c, ok);
    }
    assert TapIn(s)(OfCall(id)) == TapOf(CallHolding(c));
    assert forall x :: Live(t, x) == Live(s, x);
  }

  lemma NewNameKeepsDevices(cfg: Config, s: System, id: nat, ok: bool)
    requires TapHeld(s) && id in s.calls && s.calls[id].TakeTapIndex?
    ensures DevicesHeld(Step(cfg, s, Advance(id, ok)))
  {
    NextNameIsNew(s);
    AdvanceTouches(cfg, s, id, ok);
    assert forall x :: Live(Step(cfg, s, Advance(id, ok)), x) == Live(s, x);
  }

  lemma AdvanceKeepsDevices(cfg: Config, s: System, id: nat, ok: bool)
    requires TapHeld(s) && id in s.calls
    ensures DevicesHeld(Step(cfg, s, Advance(id, ok)))
  {
    var c := s.calls[id];
    if c.TapCommand? {
      TapCommandKeepsDevices(cfg, s, id, ok);
    } else if c.UndoTap? || c.DeleteTap? {
      TapDeletionKeepsDevices(cfg, s, id, ok);
    } else if c.TakeTapIndex? {
      NewNameKeepsDevices(cfg, s, id, ok);
    } else if MovesTap(s.world, c) {
      MoveKeepsDevices(cfg, s, id, ok);
    } else {
      OtherStepsKeepDevicesHeld(cfg, s, id, ok);
    }
  }

  // ---------- devices left behind ----------

  /** The call's next command deletes a device that exists. */
  predicate DeletesDevice(c: Call, tap: string)
  {
    (c.DeleteTap? || (c.UndoTap? && c.step > 0)) && c.tap == tap
  }

  /** Event n of the run is a failed deletion of the device tap. */
  ghost predicate FailedTapDeletion(cfg: Config, events: seq<Event>, n: nat, tap: string)
  {
    n < |events| &&
    var s, e := Run(cfg, events[..n]), events[n];
    e.Advance? && !e.ok && e.id in s.calls && DeletesDevice(s.calls[e.id], tap)
  }

  lemma StepOrphans(cfg: Config, w: World, h: History, id: nat, c: Call, ok: bool, tap: string)
    ensures tap in Remember(cfg, w, h, id, c, ok).orphans <==> tap in h.orphans || (!ok && DeletesDevice(c, tap))
  {
  }

  lemma FailedTapDeletionExtends(cfg: Config, events: seq<Event>, tap: string)
    requires events != []
    ensures var last := |events| - 1;
            (exists n :: FailedTapDeletion(cfg, events, n, tap)) <==>
            (exists n :: FailedTapDeletion(cfg, events[..last], n, tap)) || FailedTapDeletion(cfg, events, last, tap)
  {
    var last := |events| - 1;
    forall n: nat | n < last
      ensures FailedTapDeletion(cfg, events, n, tap) <==> FailedTapDeletion(cfg, events[..last], n, tap)
    {
      assert events[..last][..n] == events[..n];
    }
  }

  /** The devices on record as left behind are exactly those whose deletion failed. */
  lemma {:induction false} OrphansAreFailedDeletions(cfg: Config, events: seq<Event>, tap: string)
    ensures tap in Run(cfg, events).past.orphans <==> exists n :: FailedTapDeletion(cfg, events, n, tap)
  {
    if events != [] {
      var prefix, e := events[..|events| - 1], events[|events| - 1];
      var s := Run(cfg, prefix);
      OrphansAreFailedDeletions(cfg, prefix, tap);
      FailedTapDeletionExtends(cfg, events, tap);
      if e.Advance? && e.id in s.calls {
        StepOrphans(cfg, s.world, s.past, e.id, s.calls[e.id], e.ok, tap);
      }
    }
  }
}

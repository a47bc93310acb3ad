/** File handles and the channel slots they own, with the calls of different handles interleaved
    between their slot operations. One handle runs one call at a time. */
module LldmaOwnership {
  import opened LldmaSlots

  /** Where a handle is inside a call. */
  datatype Phase =
    | Idle                                                  // between calls
    | Taken(slot: SlotId, dir: Dir, id: string)             // allocation passed the test-and-set
    | Named(slot: SlotId, dir: Dir)                         // key written, not yet bound
    | Stopped(slot: SlotId)                                 // free: channel stopped, slot about to be put
    | Cleared                                               // free: slot put, fields not yet reset
    | Closing                                               // close: channel stopped or timed out
    | Closed

  /** The per-file structure; `kind` is None for -1. */
  datatype Handle = Handle(chid: int, kind: Option<Dir>, isGet: bool, phase: Phase)

  const FRESH := Handle(-1, None, false, Idle)

  /** The slot the fields of a handle point at. */
  function Pointed(h: Handle): Option<SlotId> {
    if h.kind.Some? && PutBank(h.kind.value).Some? && 0 <= h.chid < QUEUE_PAIRS
    then Some(SlotId(PutBank(h.kind.value).value, h.chid)) else None
  }

  /** Slots a handle holds, is acquiring, or is releasing. */
  function Owns(h: Handle): set<SlotId> {
    (if h.isGet && !h.phase.Cleared? && !h.phase.Closed? && Pointed(h).Some? then {Pointed(h).value} else {})
    + (if h.phase.Taken? || h.phase.Named? then {h.phase.slot} else {})
  }

  type HandleId = nat

  datatype Sys = Sys(slots: Slots, handles: map<HandleId, Handle>)

  datatype Action =
    | Open(h: HandleId)
    | AllocTake(h: HandleId, d2d: bool, dir: Dir, chid: nat, id: string)
    | AllocName(h: HandleId)
    | AllocBind(h: HandleId)
    | Ref(h: HandleId, dir: Dir, chid: nat)                // BIND_QUEUE found this channel
    | FreeStop(h: HandleId, dir: Dir, chid: nat, drained: bool)
    | FreePut(h: HandleId)
    | FreeReset(h: HandleId)
    | CloseStop(h: HandleId, drained: bool)
    | ClosePut(h: HandleId)

  /** The bank an allocation uses, if it accepts the direction. */
  function AllocBank(d2d: bool, dir: Dir): Option<Bank> {
    if d2d then ConnectBank(dir) else QueueBank(dir)
  }

  /** The handle is at the point of its call where the action happens. */
  predicate Enabled(s: Sys, a: Action) {
    if a.Open? then a.h !in s.handles
    else
      a.h in s.handles &&
      var phase := s.handles[a.h].phase;
      match a
      case Open(_) => false
      case AllocTake(_, _, _, chid, _) => phase.Idle? && chid < QUEUE_PAIRS
      case AllocName(_) => phase.Taken?
      case AllocBind(_) => phase.Named?
      case Ref(_, dir, chid) => phase.Idle? && chid < QUEUE_PAIRS && dir in {HostToDev, DevToHost}
      case FreeStop(_, _, chid, _) => phase.Idle? && chid < QUEUE_PAIRS
      case FreePut(_) => phase.Stopped?
      case FreeReset(_) => phase.Cleared?
      case CloseStop(_, _) => phase.Idle?
      case ClosePut(_) => phase.Closing?
  }

  /** Binding after a successful allocation. */
  function Bind(h: Handle, chid: nat, dir: Dir): Handle {
    h.(chid := chid, kind := Some(dir), isGet := true)
  }

  /** BIND_QUEUE sets the channel without marking it as got. */
  function RefTo(h: Handle, chid: nat, dir: Dir): Handle {
    h.(chid := chid, kind := Some(dir))
  }

  function Reset(h: Handle): Handle {
    h.(chid := -1, kind := None, isGet := false)
  }

  function Step(s: Sys, a: Action): Sys
    requires Enabled(s, a) && s.slots.Keys == AllSlots()
  {
    if a.Open? then s.(handles := s.handles[a.h := FRESH])
    else
      var h := s.handles[a.h];
      match a
      case Open(_) => s
      case AllocTake(_, d2d, dir, chid, id) =>
        var bank := AllocBank(d2d, dir);
        if bank.None? then s
        else
          var slot := SlotId(bank.value, chid);
          var (got, slots) := Take(s.slots, slot);
          if got then Sys(slots, s.handles[a.h := h.(phase := Taken(slot, dir, id))]) else s
      case AllocName(_) =>
        if h.phase.slot !in s.slots then s
        else Sys(Name(s.slots, h.phase.slot, h.phase.id),
                 s.handles[a.h := h.(phase := Named(h.phase.slot, h.phase.dir))])
      case AllocBind(_) =>
        s.(handles := s.handles[a.h := Bind(h, h.phase.slot.chid, h.phase.dir).(phase := Idle)])
      case Ref(_, dir, chid) => s.(handles := s.handles[a.h := RefTo(h, chid, dir)])
      case FreeStop(_, dir, chid, drained) =>
        if h.kind != Some(dir) || !drained || PutBank(dir).None? then s
        else s.(handles := s.handles[a.h := h.(phase := Stopped(SlotId(PutBank(dir).value, chid)))])
      case FreePut(_) =>
        if h.phase.slot !in s.slots then s
        else Sys(Put(s.slots, h.phase.slot), s.handles[a.h := h.(phase := Cleared)])
      case FreeReset(_) => s.(handles := s.handles[a.h := Reset(h).(phase := Idle)])
      case CloseStop(_, _) => s.(handles := s.handles[a.h := h.(phase := if h.isGet then Closing else Closed)])
      case ClosePut(_) =>
        var slots := if Pointed(h).Some? then Put(s.slots, Pointed(h).value) else s.slots;
        Sys(slots, s.handles[a.h := h.(phase := Closed)])
  }

  /** A handle's fields and phase make sense. */
  predicate HandleOk(h: Handle) {
    && (h.kind.Some? ==> PutBank(h.kind.value).Some?)
    && (h.isGet ==> Pointed(h).Some?)
    && (h.phase.Taken? || h.phase.Named? ==>
          h.phase.slot in AllSlots() && PutBank(h.phase.dir) == Some(h.phase.slot.bank))
    && (h.phase.Stopped? ==> h.phase.slot in AllSlots())
    && (h.phase.Closing? ==> h.isGet)
  }

  predicate Owned(s: Sys, slot: SlotId) {
    exists h | h in s.handles :: slot in Owns(s.handles[h])
  }

  /** A slot is used exactly when a handle owns it; no slot has two owners; a free slot has an
      empty key. */
  predicate Inv(s: Sys) {
    && s.slots.Keys == AllSlots()
    && (forall h | h in s.handles :: HandleOk(s.handles[h]))
    && (forall g, h | g in s.handles && h in s.handles && g != h :: Owns(s.handles[g]) !! Owns(s.handles[h]))
    && UsedExactly(s)
    && (forall h | h in s.handles :: TwoSlots(s.handles[h]))
  }

  /** The weakest discipline. Binding needs a handle that holds nothing; re-targeting a holder
      may only name the slot it holds; a free may only put the slot the handle holds, or a slot
      that is free anyway when it holds none. */
  predicate Disciplined(s: Sys, a: Action)
    requires Enabled(s, a) && s.slots.Keys == AllSlots()
  {
    a.Open? ||
    var h := s.handles[a.h];
    match a
    case AllocBind(_) => !h.isGet
    case Ref(_, dir, chid) => h.isGet ==> Pointed(h) == Some(SlotId(PutBank(dir).value, chid))
    case FreePut(_) =>
      h.phase.slot in s.slots ==>
        if h.isGet then Pointed(h) == Some(h.phase.slot) else !s.slots[h.phase.slot].used
    case _ => true
  }

  lemma OwnersApart(s: Sys, g: HandleId, h: HandleId, slot: SlotId)
    requires Inv(s) && g in s.handles && h in s.handles && slot in Owns(s.handles[g]) && slot in Owns(s.handles[h])
    ensures g == h
  {
    var a, b := Owns(s.handles[g]), Owns(s.handles[h]);
    assert g != h ==> a !! b;
  }

  lemma OwnedSlot(s: Sys, h: HandleId, slot: SlotId)
    requires Inv(s) && h in s.handles && slot in Owns(s.handles[h])
    ensures slot in s.slots && s.slots[slot].used
  {
    assert slot in AllSlots();
    assert Owned(s, slot);
  }

  /** The allocated slot and the slot already held differ. */
  predicate TwoSlots(h: Handle) {
    (h.phase.Taken? || h.phase.Named?) && h.isGet ==> Pointed(h) != Some(h.phase.slot)
  }

  /** Ownership of a slot is unaffected by a handle whose relation to it stays the same. */
  lemma OwnedSame(hs: map<HandleId, Handle>, h: HandleId, h': Handle, q: Slots, q': Slots, k: SlotId)
    requires h in hs && (k in Owns(h') <==> k in Owns(hs[h]))
    ensures Owned(Sys(q', hs[h := h']), k) <==> Owned(Sys(q, hs), k)
  {
    var hs' := hs[h := h'];
    if Owned(Sys(q, hs), k) {
      var g :| g in hs && k in Owns(hs[g]);
      assert k in Owns(hs'[g]);
    }
    if Owned(Sys(q', hs'), k) {
      var g :| g in hs' && k in Owns(hs'[g]);
      assert k in Owns(hs[g]);
    }
  }

  /** Two handles stay apart when the replaced one owns nothing new but a slot nobody else has. */
  lemma StillApart(s: Sys, h: HandleId, h': Handle, slot: SlotId, g: HandleId)
    requires Inv(s) && h in s.handles && g in s.handles && g != h
    requires Owns(h') <= Owns(s.handles[h]) + {slot} && slot !in Owns(s.handles[g])
    ensures Owns(h') !! Owns(s.handles[g])
  {
    assert Owns(s.handles[h]) !! Owns(s.handles[g]);
  }

  /** The part of the invariant about which slots are used, and that free slots have no key. */
  predicate UsedExactly(s: Sys) {
    && (forall slot | slot in s.slots :: s.slots[slot].used <==> Owned(s, slot))
    && (forall slot | slot in s.slots && !s.slots[slot].used :: s.slots[slot].id == "")
  }

  /** Putting the parts together after one handle was replaced. */
  lemma Reassemble(s: Sys, q': Slots, h: HandleId, h': Handle)
    requires Inv(s) && h in s.handles && HandleOk(h') && TwoSlots(h') && q'.Keys == AllSlots()
    requires forall g | g in s.handles && g != h :: Owns(h') !! Owns(s.handles[g])
    requires UsedExactly(Sys(q', s.handles[h := h']))
    ensures Inv(Sys(q', s.handles[h := h']))
  {
    var hs := s.handles[h := h'];
    forall f, g | f in hs && g in hs && f != g
      ensures Owns(hs[f]) !! Owns(hs[g])
    {
      if f != h && g != h { assert Owns(s.handles[f]) !! Owns(s.handles[g]); }
    }
  }

  /** A handle moves on without its ownership changing. */
  lemma Neutral(s: Sys, h: HandleId, h': Handle)
    requires Inv(s) && h in s.handles && HandleOk(h') && TwoSlots(h') && Owns(h') == Owns(s.handles[h])
    ensures Inv(s.(handles := s.handles[h := h']))
  {
    forall k
      ensures Owned(s.(handles := s.handles[h := h']), k) <==> Owned(s, k)
    {
      OwnedSame(s.handles, h, h', s.slots, s.slots, k);
    }
    Reassemble(s, s.slots, h, h');
  }

  /** A handle gains a slot that was free. */
  lemma Gains(s: Sys, h: HandleId, h': Handle, slot: SlotId)
    requires Inv(s) && h in s.handles && HandleOk(h') && TwoSlots(h')
    requires slot in s.slots && !s.slots[slot].used && Owns(h') == Owns(s.handles[h]) + {slot}
    ensures Inv(Sys(s.slots[slot := s.slots[slot].(used := true)], s.handles[h := h']))
  {
    var q' := s.slots[slot := s.slots[slot].(used := true)];
    var s' := Sys(q', s.handles[h := h']);
    forall g | g in s.handles && g != h
      ensures Owns(h') !! Owns(s.handles[g])
    {
      assert slot in Owns(s.handles[g]) ==> Owned(s, slot);
      StillApart(s, h, h', slot, g);
    }
    forall k | k in q'
      ensures q'[k].used <==> Owned(s', k)
    {
      if k == slot {
        assert k in Owns(s'.handles[h]);
      } else {
        OwnedSame(s.handles, h, h', s.slots, q', k);
      }
    }
    Reassemble(s, q', h, h');
  }

  /** A slot is put: by the handle that owns it, or when nobody does. */
  lemma Loses(s: Sys, h: HandleId, h': Handle, slot: SlotId)
    requires Inv(s) && h in s.handles && HandleOk(h') && TwoSlots(h') && slot in s.slots
    requires slot in Owns(s.handles[h]) || !s.slots[slot].used
    requires Owns(h') == Owns(s.handles[h]) - {slot}
    ensures Inv(Sys(Put(s.slots, slot), s.handles[h := h']))
  {
    var q' := Put(s.slots, slot);
    var s' := Sys(q', s.handles[h := h']);
    forall g | g in s.handles && g != h
      ensures slot !in Owns(s.handles[g]) && Owns(h') !! Owns(s.handles[g])
    {
      if slot in Owns(s.handles[g]) {
        OwnedSlot(s, g, slot);
        OwnersApart(s, g, h, slot);
      }
      StillApart(s, h, h', slot, g);
    }
    forall k | k in q'
      ensures q'[k].used <==> Owned(s', k)
    {
      if k == slot {
        assert forall g | g in s'.handles :: slot !in Owns(s'.handles[g]);
      } else {
        OwnedSame(s.handles, h, h', s.slots, q', k);
      }
    }
    Reassemble(s, q', h, h');
  }

  /** The owner writes the key of its slot. */
  lemma Names(s: Sys, h: HandleId, slot: SlotId, id: string)
    requires Inv(s) && h in s.handles && slot in Owns(s.handles[h])
    ensures slot in s.slots && Inv(s.(slots := Name(s.slots, slot, id)))
  {
    OwnedSlot(s, h, slot);
    var s' := s.(slots := Name(s.slots, slot, id));
    forall k
      ensures Owned(s', k) <==> Owned(s, k)
    {
    }
  }

  /** A used slot that no handle owns any more is a leak. */
  lemma Leaks(s: Sys, s': Sys, h: HandleId, slot: SlotId)
    requires Inv(s) && h in s.handles && slot in Owns(s.handles[h])
    requires h in s'.handles && s'.handles == s.handles[h := s'.handles[h]] && slot !in Owns(s'.handles[h])
    requires slot in s'.slots && s'.slots[slot].used
    ensures !Inv(s')
  {
    if Owned(s', slot) {
      var g :| g in s'.handles && slot in Owns(s'.handles[g]);
      OwnersApart(s, g, h, slot);
    }
  }

  lemma BindIff(s: Sys, a: Action)
    requires Inv(s) && a.AllocBind? && Enabled(s, a)
    ensures Inv(Step(s, a)) <==> Disciplined(s, a)
  {
    var h := s.handles[a.h];
    var h' := Bind(h, h.phase.slot.chid, h.phase.dir).(phase := Idle);
    assert Pointed(h') == Some(h.phase.slot);
    if h.isGet {
      assert Pointed(h).value in Owns(h);
      OwnedSlot(s, a.h, Pointed(h).value);
      Leaks(s, Step(s, a), a.h, Pointed(h).value);
    } else {
      Neutral(s, a.h, h');
    }
  }

  lemma RefIff(s: Sys, a: Action)
    requires Inv(s) && a.Ref? && Enabled(s, a)
    ensures Inv(Step(s, a)) <==> Disciplined(s, a)
  {
    var h := s.handles[a.h];
    var h' := RefTo(h, a.chid, a.dir);
    assert Pointed(h') == Some(SlotId(PutBank(a.dir).value, a.chid));
    if h.isGet && Pointed(h) != Pointed(h') {
      assert Pointed(h).value in Owns(h);
      OwnedSlot(s, a.h, Pointed(h).value);
      Leaks(s, Step(s, a), a.h, Pointed(h).value);
    } else {
      Neutral(s, a.h, h');
    }
  }

  lemma FreePutIff(s: Sys, a: Action)
    requires Inv(s) && a.FreePut? && Enabled(s, a)
    ensures Inv(Step(s, a)) <==> Disciplined(s, a)
  {
    var h := s.handles[a.h];
    var slot := h.phase.slot;
    var s' := Step(s, a);
    assert slot in s.slots;
    assert Owns(h.(phase := Cleared)) == {};
    if h.isGet && Pointed(h) != Some(slot) {
      assert Pointed(h).value in Owns(h);
      OwnedSlot(s, a.h, Pointed(h).value);
      Leaks(s, s', a.h, Pointed(h).value);
    } else if !h.isGet && s.slots[slot].used {
      assert Owned(s, slot);
      var g :| g in s.handles && slot in Owns(s.handles[g]);
      assert slot in Owns(s'.handles[g]);
      assert Owned(s', slot);
    } else {
      Loses(s, a.h, h.(phase := Cleared), slot);
    }
  }

  lemma TakeStep(s: Sys, a: Action)
    requires Inv(s) && a.AllocTake? && Enabled(s, a)
    ensures Inv(Step(s, a))
  {
    var bank := AllocBank(a.d2d, a.dir);
    BanksAgree(a.dir);
    if bank.Some? && !s.slots[SlotId(bank.value, a.chid)].used {
      var slot := SlotId(bank.value, a.chid);
      var h := s.handles[a.h];
      if h.isGet && Pointed(h) == Some(slot) { OwnedSlot(s, a.h, slot); }
      Gains(s, a.h, h.(phase := Taken(slot, a.dir, a.id)), slot);
    }
  }

  lemma NameStep(s: Sys, a: Action)
    requires Inv(s) && a.AllocName? && Enabled(s, a)
    ensures Inv(Step(s, a))
  {
    var h := s.handles[a.h];
    Names(s, a.h, h.phase.slot, h.phase.id);
    Neutral(s.(slots := Name(s.slots, h.phase.slot, h.phase.id)), a.h, h.(phase := Named(h.phase.slot, h.phase.dir)));
  }

  lemma StopStep(s: Sys, a: Action)
    requires Inv(s) && (a.FreeStop? || a.FreeReset? || a.CloseStop?) && Enabled(s, a)
    ensures Inv(Step(s, a))
  {
    var h := s.handles[a.h];
    match a {
      case FreeStop(i, dir, chid, drained) =>
        if h.kind == Some(dir) && drained && PutBank(dir).Some? {
          Neutral(s, i, h.(phase := Stopped(SlotId(PutBank(dir).value, chid))));
        }
      case FreeReset(i) => Neutral(s, i, Reset(h).(phase := Idle));
      case CloseStop(i, _) => Neutral(s, i, h.(phase := if h.isGet then Closing else Closed));
    }
  }

  lemma CloseStep(s: Sys, a: Action)
    requires Inv(s) && a.ClosePut? && Enabled(s, a)
    ensures Inv(Step(s, a))
  {
    var h := s.handles[a.h];
    var slot := Pointed(h).value;
    assert slot in Owns(h);
    OwnedSlot(s, a.h, slot);
    Loses(s, a.h, h.(phase := Closed), slot);
  }

  lemma Opens(s: Sys, i: HandleId)
    requires Inv(s) && i !in s.handles
    ensures Inv(s.(handles := s.handles[i := FRESH]))
  {
    var s' := s.(handles := s.handles[i := FRESH]);
    assert Owns(FRESH) == {};
    forall k
      ensures Owned(s', k) <==> Owned(s, k)
    {
      if Owned(s, k) {
        var g :| g in s.handles && k in Owns(s.handles[g]);
        assert k in Owns(s'.handles[g]);
      }
    }
  }

  /** Every action keeps exact ownership precisely when it is disciplined. */
  lemma StepIff(s: Sys, a: Action)
    requires Inv(s) && Enabled(s, a)
    ensures Inv(Step(s, a)) <==> Disciplined(s, a)
  {
    match a
    case AllocBind(_) => BindIff(s, a);
    case Ref(_, _, _) => RefIff(s, a);
    case FreePut(_) => FreePutIff(s, a);
    case Open(i) => Opens(s, i);
    case AllocTake(_, _, _, _, _) => TakeStep(s, a);
    case AllocName(_) => NameStep(s, a);
    case ClosePut(_) => CloseStep(s, a);
    case _ => StopStep(s, a);
  }

  // Whole runs.

  predicate IsRun(s: Sys, run: seq<Action>)
    requires s.slots.Keys == AllSlots()
    decreases |run|
  {
    run == [] ||
    (Enabled(s, run[0]) && Disciplined(s, run[0]) && Step(s, run[0]).slots.Keys == AllSlots()
     && IsRun(Step(s, run[0]), run[1..]))
  }

  function Run(s: Sys, run: seq<Action>): Sys
    requires s.slots.Keys == AllSlots() && IsRun(s, run)
    decreases |run|
  {
    if run == [] then s else Run(Step(s, run[0]), run[1..])
  }

  lemma {:induction false} RunKeepsInv(s: Sys, run: seq<Action>)
    requires Inv(s) && IsRun(s, run)
    ensures Inv(Run(s, run))
    decreases |run|
  {
    if run != [] {
      StepIff(s, run[0]);
      RunKeepsInv(Step(s, run[0]), run[1..]);
    }
  }

  function Initial(): Sys {
    Sys(map s | s in AllSlots() :: Slot(false, ""), map[])
  }

  /** Over every disciplined interleaving a slot is used exactly when one handle, and only one,
      owns it; and once every handle is closed every slot is free with an empty key, whether or
      not the channels drained when they were stopped. */
  lemma Ownership(run: seq<Action>, slot: SlotId)
    requires IsRun(Initial(), run) && slot.chid < QUEUE_PAIRS
    ensures var s := Run(Initial(), run);
            && slot in s.slots
            && (s.slots[slot].used <==> exists h | h in s.handles :: slot in Owns(s.handles[h]))
            && (forall g, h | g in s.handles && h in s.handles
                              && slot in Owns(s.handles[g]) && slot in Owns(s.handles[h]) :: g == h)
            && ((forall h | h in s.handles :: s.handles[h].phase.Closed?) ==> s.slots[slot] == Slot(false, ""))
  {
    RunKeepsInv(Initial(), run);
    var s := Run(Initial(), run);
    assert slot in s.slots;
    forall g, h | g in s.handles && h in s.handles && slot in Owns(s.handles[g]) && slot in Owns(s.handles[h])
      ensures g == h
    {
      OwnersApart(s, g, h, slot);
    }
    assert s.slots[slot].used <==> Owned(s, slot);
  }

  // What clients have to do, in terms of the calls they issue.

  /** A client whose handle holds a channel issues no other allocation and no bind, and frees
      only the channel its handle holds. The other actions happen inside calls. */
  predicate ClientObeys(s: Sys, a: Action)
    requires Enabled(s, a)
  {
    match a
    case AllocTake(h, _, _, _, _) => !s.handles[h].isGet
    case Ref(h, _, _) => !s.handles[h].isGet
    case FreeStop(h, _, chid, _) => s.handles[h].isGet && s.handles[h].chid == chid
    case _ => true
  }

  predicate ClientRun(s: Sys, run: seq<Action>)
    requires s.slots.Keys == AllSlots()
    decreases |run|
  {
    run == [] ||
    (Enabled(s, run[0]) && ClientObeys(s, run[0]) && Step(s, run[0]).slots.Keys == AllSlots()
     && ClientRun(Step(s, run[0]), run[1..]))
  }

  /** What the client discipline carries through the inside of calls: a handle that is acquiring
      holds nothing, and a handle that is freeing puts the slot it holds. */
  predicate CallsClean(s: Sys) {
    forall h | h in s.handles :: CallClean(s.handles[h])
  }

  predicate CallClean(h: Handle) {
    && (h.phase.Taken? || h.phase.Named? ==> !h.isGet)
    && (h.phase.Stopped? ==> h.isGet && Pointed(h) == Some(h.phase.slot))
  }

  lemma ClientStep(s: Sys, a: Action)
    requires s.slots.Keys == AllSlots() && Enabled(s, a) && CallsClean(s) && ClientObeys(s, a)
    ensures Disciplined(s, a) && CallsClean(Step(s, a))
  {
    assert a.Open? || CallClean(s.handles[a.h]);
  }

  /** Clients that obey produce disciplined runs. */
  lemma {:induction false} ClientsDisciplined(s: Sys, run: seq<Action>)
    requires s.slots.Keys == AllSlots() && CallsClean(s) && ClientRun(s, run)
    ensures IsRun(s, run)
    decreases |run|
  {
    if run != [] {
      ClientStep(s, run[0]);
      ClientsDisciplined(Step(s, run[0]), run[1..]);
    }
  }

  /** Exact ownership for clients that obey, over every interleaving of their calls. */
  lemma ClientOwnership(run: seq<Action>, slot: SlotId)
    requires ClientRun(Initial(), run) && slot.chid < QUEUE_PAIRS
    ensures IsRun(Initial(), run)
    ensures var s := Run(Initial(), run);
            && slot in s.slots
            && (s.slots[slot].used <==> exists h | h in s.handles :: slot in Owns(s.handles[h]))
            && (forall g, h | g in s.handles && h in s.handles
                              && slot in Owns(s.handles[g]) && slot in Owns(s.handles[h]) :: g == h)
            && ((forall h | h in s.handles :: s.handles[h].phase.Closed?) ==> s.slots[slot] == Slot(false, ""))
  {
    ClientsDisciplined(Initial(), run);
    Ownership(run, slot);
  }

  // Calls one at a time, with no discipline at all.

  /** Every other handle is between calls or closed. */
  predicate Alone(s: Sys, a: Action) {
    forall h | h in s.handles && h != a.h :: s.handles[h].phase.Idle? || s.handles[h].phase.Closed?
  }

  predicate SequentialRun(s: Sys, run: seq<Action>)
    requires s.slots.Keys == AllSlots()
    decreases |run|
  {
    run == [] ||
    (Enabled(s, run[0]) && Alone(s, run[0]) && Step(s, run[0]).slots.Keys == AllSlots()
     && SequentialRun(Step(s, run[0]), run[1..]))
  }

  function SequentialEnd(s: Sys, run: seq<Action>): (end: Sys)
    requires s.slots.Keys == AllSlots() && SequentialRun(s, run)
    ensures end.slots.Keys == AllSlots()
    decreases |run|
  {
    if run == [] then s else SequentialEnd(Step(s, run[0]), run[1..])
  }

  /** The fields of every handle make sense after every step, whoever acts and in whatever order. */
  lemma HandlesStayOk(s: Sys, a: Action)
    requires s.slots.Keys == AllSlots() && Enabled(s, a)
    requires forall h | h in s.handles :: HandleOk(s.handles[h])
    ensures forall h | h in Step(s, a).handles :: HandleOk(Step(s, a).handles[h])
  {
    if a.AllocTake? { BanksAgree(a.dir); }
  }

  /** Free slots have no key, and a slot about to be named is used. */
  predicate Unnamed(s: Sys) {
    && FreeUnnamed(s.slots)
    && forall h | h in s.handles && s.handles[h].phase.Taken? ::
         s.handles[h].phase.slot in s.slots && s.slots[s.handles[h].phase.slot].used
  }

  lemma {:induction false} SequentialUnnamed(s: Sys, run: seq<Action>)
    requires s.slots.Keys == AllSlots() && SequentialRun(s, run) && Unnamed(s)
    ensures Unnamed(SequentialEnd(s, run))
    decreases |run|
  {
    if run != [] {
      assert Unnamed(Step(s, run[0]));
      SequentialUnnamed(Step(s, run[0]), run[1..]);
    }
  }

  /** So with calls one at a time, whatever clients do, a slot with a key is used. */
  lemma KeyedSlotUsed(run: seq<Action>, slot: SlotId)
    requires SequentialRun(Initial(), run) && slot.chid < QUEUE_PAIRS
    ensures var q := SequentialEnd(Initial(), run).slots;
            slot in q && (q[slot].id != "" ==> q[slot].used)
  {
    SequentialUnnamed(Initial(), run);
  }

  // Calls of one handle that are not interleaved with others, as runs.

  /** The run leads from `s` to `end`, action by action, with no discipline asked. */
  predicate Follow(s: Sys, actions: seq<Action>, end: Sys)
    decreases |actions|
  {
    if actions == [] then s == end
    else s.slots.Keys == AllSlots() && Enabled(s, actions[0]) && Follow(Step(s, actions[0]), actions[1..], end)
  }

  lemma {:induction false} FollowAppend(s: Sys, a: seq<Action>, mid: Sys, b: seq<Action>, end: Sys)
    requires Follow(s, a, mid) && Follow(mid, b, end)
    ensures Follow(s, a + b, end)
    decreases |a|
  {
    if a == [] {
      assert a + b == b;
    } else {
      assert (a + b)[1..] == a[1..] + b;
      FollowAppend(Step(s, a[0]), a[1..], mid, b, end);
    }
  }

  lemma FollowStep(s: Sys, a: Action)
    requires s.slots.Keys == AllSlots() && Enabled(s, a)
    ensures Follow(s, [a], Step(s, a))
  {
    assert [a][1..] == [];
  }

  lemma FollowSteps3(s: Sys, s1: Sys, s2: Sys, s3: Sys, a: Action, b: Action, c: Action)
    requires s.slots.Keys == s1.slots.Keys == s2.slots.Keys == AllSlots()
    requires Enabled(s, a) && s1 == Step(s, a) && Enabled(s1, b) && s2 == Step(s1, b)
    requires Enabled(s2, c) && s3 == Step(s2, c)
    ensures Follow(s, [a, b, c], s3)
  {
    assert [a, b, c][1..] == [b, c] && [b, c][1..] == [c] && [c][1..] == [];
    assert Follow(s3, [], s3);
    assert Follow(s2, [c], s3);
    assert Follow(s1, [b, c], s3);
  }

  /** An allocation that returned 0 is take, name and bind in a row. */
  lemma AllocIsRun(s: Sys, h: HandleId, d2d: bool, dir: Dir, c: nat, id: string)
    requires s.slots.Keys == AllSlots() && h in s.handles && s.handles[h].phase == Idle && c < QUEUE_PAIRS
    requires AllocBank(d2d, dir).Some? && !s.slots[SlotId(AllocBank(d2d, dir).value, c)].used
    ensures var slot := SlotId(AllocBank(d2d, dir).value, c);
            Follow(s, [AllocTake(h, d2d, dir, c, id), AllocName(h), AllocBind(h)],
                   Sys(Acquired(s.slots, slot, id), s.handles[h := Bind(s.handles[h], c, dir)]))
  {
    var s1 := Step(s, AllocTake(h, d2d, dir, c, id));
    var s2 := Step(s1, AllocName(h));
    var s3 := Step(s2, AllocBind(h));
    assert s3.handles == s.handles[h := Bind(s.handles[h], c, dir)];
    FollowSteps3(s, s1, s2, s3, AllocTake(h, d2d, dir, c, id), AllocName(h), AllocBind(h));
  }

  /** A free that returned 0 is stop, put and reset in a row. */
  lemma FreeIsRun(s: Sys, h: HandleId, dir: Dir, c: nat)
    requires s.slots.Keys == AllSlots() && h in s.handles && s.handles[h].phase == Idle && c < QUEUE_PAIRS
    requires s.handles[h].kind == Some(dir) && PutBank(dir).Some?
    ensures Follow(s, [FreeStop(h, dir, c, true), FreePut(h), FreeReset(h)],
                   Sys(PutFor(s.slots, c, dir), s.handles[h := Reset(s.handles[h])]))
  {
    var s1 := Step(s, FreeStop(h, dir, c, true));
    var s2 := Step(s1, FreePut(h));
    var s3 := Step(s2, FreeReset(h));
    assert s3.handles == s.handles[h := Reset(s.handles[h])];
    FollowSteps3(s, s1, s2, s3, FreeStop(h, dir, c, true), FreePut(h), FreeReset(h));
  }

  /** Closing a holder is stop and put in a row, whether or not the channel drained. */
  lemma CloseIsRun(s: Sys, h: HandleId, drained: bool)
    requires s.slots.Keys == AllSlots() && h in s.handles && s.handles[h].phase == Idle
    requires s.handles[h].isGet && Pointed(s.handles[h]).Some?
    ensures Follow(s, [CloseStop(h, drained), ClosePut(h)],
                   Sys(Put(s.slots, Pointed(s.handles[h]).value), s.handles[h := s.handles[h].(phase := Closed)]))
  {
    var s1 := Step(s, CloseStop(h, drained));
    var s2 := Step(s1, ClosePut(h));
    assert s2.handles == s.handles[h := s.handles[h].(phase := Closed)];
    assert [CloseStop(h, drained), ClosePut(h)][1..] == [ClosePut(h)] && [ClosePut(h)][1..] == [];
    assert Follow(s2, [], s2);
    assert Follow(s1, [ClosePut(h)], s2);
  }

  // Concrete runs without the discipline.

  lemma AllocNext(run: seq<Action>, s: Sys, h: HandleId, chid: nat, id: string) returns (s': Sys)
    requires Follow(Initial(), run, s) && s.slots.Keys == AllSlots() && h in s.handles && s.handles[h].phase == Idle
    requires chid < QUEUE_PAIRS && !s.slots[SlotId(Rx, chid)].used
    ensures s' == Sys(Acquired(s.slots, SlotId(Rx, chid), id), s.handles[h := Bind(s.handles[h], chid, HostToDev)])
    ensures Follow(Initial(), run + Alloc(h, chid, id), s')
  {
    s' := Sys(Acquired(s.slots, SlotId(Rx, chid), id), s.handles[h := Bind(s.handles[h], chid, HostToDev)]);
    AllocIsRun(s, h, false, HostToDev, chid, id);
    FollowAppend(Initial(), run, s, Alloc(h, chid, id), s');
  }

  /** One handle has allocated channel 0 and then channel 1. */
  lemma AllocatedTwice() returns (s: Sys)
    ensures Follow(Initial(), [Open(0)] + Alloc(0, 0, "a") + Alloc(0, 1, "b"), s)
    ensures s.slots.Keys == AllSlots() && s.slots[SlotId(Rx, 0)] == Slot(true, "a")
    ensures s.handles == map[0 := Bind(FRESH, 1, HostToDev)]
  {
    var s1 := Step(Initial(), Open(0));
    FollowStep(Initial(), Open(0));
    var s2 := AllocNext([Open(0)], s1, 0, 0, "a");
    s := AllocNext([Open(0)] + Alloc(0, 0, "a"), s2, 0, 1, "b");
  }

  /** It is closed: every handle is closed, and the slot of channel 0 is still used and still
      found under its key, with no owner. */
  lemma TwoAllocationsLeak() returns (end: Sys)
    ensures Follow(Initial(), [Open(0)] + Alloc(0, 0, "a") + Alloc(0, 1, "b") + [CloseStop(0, true), ClosePut(0)], end)
    ensures end.handles.Keys == {0} && end.handles[0].phase.Closed?
    ensures SlotId(Rx, 0) in end.slots && end.slots[SlotId(Rx, 0)] == Slot(true, "a")
    ensures !Owned(end, SlotId(Rx, 0)) && !Inv(end)
  {
    var s := AllocatedTwice();
    assert Pointed(s.handles[0]) == Some(SlotId(Rx, 1));
    end := Sys(Put(s.slots, SlotId(Rx, 1)), s.handles[0 := s.handles[0].(phase := Closed)]);
    CloseIsRun(s, 0, true);
    FollowAppend(Initial(), [Open(0)] + Alloc(0, 0, "a") + Alloc(0, 1, "b"), s, [CloseStop(0, true), ClosePut(0)], end);
    assert !Owned(end, SlotId(Rx, 0));
  }

  /** Handle 0 holds channel 0 and handle 1 has looked it up. */
  lemma ChannelShared() returns (s: Sys)
    ensures Follow(Initial(), [Open(0)] + [Open(1)] + Alloc(0, 0, "a") + [Ref(1, HostToDev, 0)], s)
    ensures s.slots.Keys == AllSlots() && s.handles.Keys == {0, 1}
    ensures s.handles[0] == Bind(FRESH, 0, HostToDev) && s.handles[1] == RefTo(FRESH, 0, HostToDev)
  {
    var s1 := Step(Initial(), Open(0));
    var s2 := Step(s1, Open(1));
    FollowStep(Initial(), Open(0));
    FollowStep(s1, Open(1));
    FollowAppend(Initial(), [Open(0)], s1, [Open(1)], s2);
    var s3 := AllocNext([Open(0)] + [Open(1)], s2, 0, 0, "a");
    s := Step(s3, Ref(1, HostToDev, 0));
    FollowStep(s3, Ref(1, HostToDev, 0));
    FollowAppend(Initial(), [Open(0)] + [Open(1)] + Alloc(0, 0, "a"), s3, [Ref(1, HostToDev, 0)], s);
  }

  /** Then handle 1 frees it: handle 0 still points at a slot that is free for anyone to take. */
  lemma FreedUnderHolder() returns (end: Sys)
    ensures Follow(Initial(), [Open(0)] + [Open(1)] + Alloc(0, 0, "a") + [Ref(1, HostToDev, 0)]
                              + [FreeStop(1, HostToDev, 0, true), FreePut(1), FreeReset(1)], end)
    ensures 0 in end.handles && end.handles[0].isGet && Pointed(end.handles[0]) == Some(SlotId(Rx, 0))
    ensures SlotId(Rx, 0) in end.slots && !end.slots[SlotId(Rx, 0)].used && !Inv(end)
  {
    var s := ChannelShared();
    end := Sys(PutFor(s.slots, 0, HostToDev), s.handles[1 := Reset(s.handles[1])]);
    FreeIsRun(s, 1, HostToDev, 0);
    FollowAppend(Initial(), [Open(0)] + [Open(1)] + Alloc(0, 0, "a") + [Ref(1, HostToDev, 0)], s,
                 [FreeStop(1, HostToDev, 0, true), FreePut(1), FreeReset(1)], end);
    assert SlotId(Rx, 0) in Owns(end.handles[0]);
    assert Owned(end, SlotId(Rx, 0));
  }

  /** Calls one at a time are needed for free slots to have no key: handle 1 frees a channel that
      handle 0 has taken and not yet named. */
  lemma NamedWhileFree() returns (end: Sys)
    ensures Follow(Initial(), [Open(0)] + [Open(1)]
                              + [AllocTake(0, false, HostToDev, 0, "a"), Ref(1, HostToDev, 0),
                                 FreeStop(1, HostToDev, 0, true)]
                              + [FreePut(1)] + [AllocName(0)], end)
    ensures SlotId(Rx, 0) in end.slots && end.slots[SlotId(Rx, 0)] == Slot(false, "a")
  {
    var s1 := Step(Initial(), Open(0));
    var s2 := Step(s1, Open(1));
    FollowStep(Initial(), Open(0));
    FollowStep(s1, Open(1));
    FollowAppend(Initial(), [Open(0)], s1, [Open(1)], s2);
    var a, b, c := AllocTake(0, false, HostToDev, 0, "a"), Ref(1, HostToDev, 0), FreeStop(1, HostToDev, 0, true);
    var s3 := Step(s2, a);
    var s4 := Step(s3, b);
    var s5 := Step(s4, c);
    FollowSteps3(s2, s3, s4, s5, a, b, c);
    FollowAppend(Initial(), [Open(0)] + [Open(1)], s2, [a, b, c], s5);
    var s6 := Step(s5, FreePut(1));
    FollowStep(s5, FreePut(1));
    FollowAppend(Initial(), [Open(0)] + [Open(1)] + [a, b, c], s5, [FreePut(1)], s6);
    end := Step(s6, AllocName(0));
    FollowStep(s6, AllocName(0));
    FollowAppend(Initial(), [Open(0)] + [Open(1)] + [a, b, c] + [FreePut(1)], s6, [AllocName(0)], end);
  }

  /** A whole queue allocation by handle `h`. */
  function Alloc(h: HandleId, chid: nat, id: string): seq<Action> {
    [AllocTake(h, false, HostToDev, chid, id), AllocName(h), AllocBind(h)]
  }
}

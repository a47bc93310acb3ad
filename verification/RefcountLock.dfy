/** The reference counters as a readers/writer lock over overlapping lists.
    A client that received 0 from INC or WRITE holds the list until its own DEC or CLEAR. */
module RefcountLock {
  import opened Common
  import opened Refcount

  /** An outstanding hold: the target that was acquired, and whether by WRITE. */
  datatype Hold = Hold(target: Target, writer: bool)

  /** Counters together with the holds the clients have been granted. */
  datatype Lock = Lock(cells: seq<int>, holds: seq<Hold>)

  /** What clients may issue. `Release` names one of the outstanding holds: DEC and CLEAR come
      only from a holder of the same list, of either kind. */
  datatype Request =
    | Acquire(target: Target, writer: bool)
    | Release(h: nat, clear: bool)
    | Reset(target: Target)
    | Query(target: Target, unknown: bool)

  function List(cfg: Config, hold: Hold): seq<nat>
    requires cfg.Valid()
  {
    TargetList(cfg, hold.target)
  }

  /** Every list the driver builds names existing counters, each at most once. */
  lemma ListsUsable(cfg: Config, t: Target)
    requires cfg.Valid()
    ensures Usable(TargetList(cfg, t), CELLS)
  {
    match t
    case Device => DevPrefixUsable(cfg, 8);
    case Lane(lane) => LaneListUsable(cfg, lane);
    case Region(_, _) =>
  }

  /** Number of holds of one kind that cover a counter. */
  function Cover(cfg: Config, holds: seq<Hold>, p: nat, writer: bool): nat
    requires cfg.Valid()
  {
    if holds == [] then 0
    else (if holds[0].writer == writer && p in List(cfg, holds[0]) then 1 else 0) + Cover(cfg, holds[1..], p, writer)
  }

  lemma {:induction false} CoverConcat(cfg: Config, a: seq<Hold>, b: seq<Hold>, p: nat, writer: bool)
    requires cfg.Valid()
    ensures Cover(cfg, a + b, p, writer) == Cover(cfg, a, p, writer) + Cover(cfg, b, p, writer)
  {
    if a == [] {
      assert a + b == b;
    } else {
      assert (a + b)[1..] == a[1..] + b;
      CoverConcat(cfg, a[1..], b, p, writer);
    }
  }

  function Without(holds: seq<Hold>, h: nat): seq<Hold>
    requires h < |holds|
  {
    holds[..h] + holds[h + 1..]
  }

  function Share(cfg: Config, hold: Hold, p: nat, writer: bool): nat
    requires cfg.Valid()
  {
    if hold.writer == writer && p in List(cfg, hold) then 1 else 0
  }

  lemma CoverSplit(cfg: Config, holds: seq<Hold>, h: nat, p: nat, writer: bool)
    requires cfg.Valid() && h < |holds|
    ensures Cover(cfg, holds, p, writer) == Cover(cfg, Without(holds, h), p, writer) + Share(cfg, holds[h], p, writer)
  {
    assert holds == holds[..h] + ([holds[h]] + holds[h + 1..]);
    CoverConcat(cfg, holds[..h], [holds[h]] + holds[h + 1..], p, writer);
    CoverConcat(cfg, holds[..h], holds[h + 1..], p, writer);
    assert ([holds[h]] + holds[h + 1..])[1..] == holds[h + 1..];
  }

  lemma CoverAppend(cfg: Config, holds: seq<Hold>, hold: Hold, p: nat, writer: bool)
    requires cfg.Valid()
    ensures Cover(cfg, holds + [hold], p, writer) == Cover(cfg, holds, p, writer) + Share(cfg, hold, p, writer)
  {
    CoverConcat(cfg, holds, [hold], p, writer);
    assert Cover(cfg, [hold][1..], p, writer) == 0;
  }

  /** A counter is covered exactly when some hold of the kind lists it. */
  lemma {:induction false} CoverPositive(cfg: Config, holds: seq<Hold>, p: nat, writer: bool)
    requires cfg.Valid()
    ensures Cover(cfg, holds, p, writer) > 0 <==>
            exists h | 0 <= h < |holds| :: holds[h].writer == writer && p in List(cfg, holds[h])
  {
    if holds != [] {
      CoverPositive(cfg, holds[1..], p, writer);
      assert forall h | 1 <= h < |holds| :: holds[h] == holds[1..][h - 1];
    }
  }

  /** One counter agrees with the holds that cover it: -1 exactly under one writer and no
      reader, otherwise the number of readers under no writer. */
  predicate Agrees(value: int, writers: nat, readers: nat) {
    (writers == 0 && value == readers) || (writers == 1 && readers == 0 && value == -1)
  }

  predicate Conserved(cfg: Config, s: Lock)
    requires cfg.Valid()
  {
    && |s.cells| == CELLS
    && forall p | 0 <= p < CELLS :: Agrees(s.cells[p], Cover(cfg, s.holds, p, true), Cover(cfg, s.holds, p, false))
  }

  predicate Overlap(a: seq<nat>, b: seq<nat>) {
    exists p :: p in a && p in b
  }

  predicate Within(a: seq<nat>, b: seq<nat>) {
    forall p :: p in a ==> p in b
  }

  /** Holds that a reset of `list` takes away: those lying inside it. */
  function Outside(cfg: Config, holds: seq<Hold>, list: seq<nat>): seq<Hold>
    requires cfg.Valid()
  {
    if holds == [] then []
    else (if Within(List(cfg, holds[0]), list) then [] else [holds[0]]) + Outside(cfg, holds[1..], list)
  }

  /** A hold that a reset of `list` would cut in two. */
  predicate Straddles(cfg: Config, hold: Hold, list: seq<nat>)
    requires cfg.Valid()
  {
    Overlap(List(cfg, hold), list) && !Within(List(cfg, hold), list)
  }

  function CommandOf(r: Request): Command {
    match r
    case Acquire(_, writer) => if writer then Write else Inc
    case Release(_, clear) => if clear then Clear else Dec
    case Reset(_) => Rst
    case Query(_, unknown) => if unknown then Unknown else Get
  }

  predicate Named(s: Lock, r: Request) {
    r.Release? ==> r.h < |s.holds|
  }

  function TargetOf(s: Lock, r: Request): Target
    requires Named(s, r)
  {
    if r.Release? then s.holds[r.h].target else r.target
  }

  /** The driver's part of a request. */
  function Reply(cfg: Config, s: Lock, r: Request): Outcome
    requires cfg.Valid() && |s.cells| == CELLS && Named(s, r)
  {
    ListsUsable(cfg, TargetOf(s, r));
    Control(s.cells, TargetList(cfg, TargetOf(s, r)), CommandOf(r), 0)
  }

  function Step(cfg: Config, s: Lock, r: Request): (s': Lock)
    requires cfg.Valid() && |s.cells| == CELLS && Named(s, r)
  {
    var o := Reply(cfg, s, r);
    Lock(o.cells,
         if o.ret != 0 then s.holds
         else match r
           case Acquire(t, writer) => s.holds + [Hold(t, writer)]
           case Release(h, _) => Without(s.holds, h)
           case Reset(t) => Outside(cfg, s.holds, TargetList(cfg, t))
           case Query(_, _) => s.holds)
  }

  /** The discipline: release only what is held, and reset only lists that cut no hold in two.
      A reset of the whole device cuts no hold on enabled counters. */
  predicate Allowed(cfg: Config, s: Lock, r: Request)
    requires cfg.Valid()
  {
    && Named(s, r)
    && (r.Reset? ==> forall h | 0 <= h < |s.holds| :: !Straddles(cfg, s.holds[h], TargetList(cfg, r.target)))
  }

  // Answers in a conserved state.

  lemma CoverTwo(cfg: Config, holds: seq<Hold>, i: nat, j: nat, p: nat)
    requires cfg.Valid() && i < j < |holds|
    requires p in List(cfg, holds[i]) && p in List(cfg, holds[j])
    ensures Cover(cfg, holds, p, holds[i].writer) >= 1 && Cover(cfg, holds, p, holds[j].writer) >= 1
    ensures holds[i].writer == holds[j].writer ==> Cover(cfg, holds, p, holds[i].writer) >= 2
  {
    CoverPositive(cfg, holds, p, holds[i].writer);
    CoverPositive(cfg, holds, p, holds[j].writer);
    CoverSplit(cfg, holds, j, p, holds[i].writer);
    assert Without(holds, j)[i] == holds[i];
    CoverPositive(cfg, Without(holds, j), p, holds[i].writer);
  }

  /** Overlapping holds are all readers: a writer never coexists with any other hold on a
      counter it covers. */
  lemma Exclusion(cfg: Config, s: Lock, i: nat, j: nat)
    requires cfg.Valid() && Conserved(cfg, s)
    requires i < j < |s.holds| && Overlap(List(cfg, s.holds[i]), List(cfg, s.holds[j]))
    ensures !s.holds[i].writer && !s.holds[j].writer
  {
    var p :| p in List(cfg, s.holds[i]) && p in List(cfg, s.holds[j]);
    ListsUsable(cfg, s.holds[i].target);
    CoverTwo(cfg, s.holds, i, j, p);
    assert Agrees(s.cells[p], Cover(cfg, s.holds, p, true), Cover(cfg, s.holds, p, false));
  }

  predicate Contended(cfg: Config, s: Lock, list: seq<nat>, writer: bool)
    requires cfg.Valid()
  {
    exists h | 0 <= h < |s.holds| :: s.holds[h].writer == writer && Overlap(List(cfg, s.holds[h]), list)
  }

  /** In terms of counters: a listed counter is -1 exactly under an overlapping writer, and
      positive exactly under an overlapping reader. */
  lemma ContendedCells(cfg: Config, s: Lock, list: seq<nat>)
    requires cfg.Valid() && Conserved(cfg, s) && Usable(list, CELLS)
    ensures Any(s.cells, list, x => x == -1) <==> Contended(cfg, s, list, true)
    ensures Any(s.cells, list, x => x > 0) <==> Contended(cfg, s, list, false)
    ensures !Any(s.cells, list, x => x < -1)
  {
    forall i | 0 <= i < |list|
      ensures s.cells[list[i]] == -1 <==>
              exists h | 0 <= h < |s.holds| :: s.holds[h].writer && list[i] in List(cfg, s.holds[h])
      ensures s.cells[list[i]] > 0 <==>
              exists h | 0 <= h < |s.holds| :: !s.holds[h].writer && list[i] in List(cfg, s.holds[h])
      ensures s.cells[list[i]] >= -1
    {
      CoverPositive(cfg, s.holds, list[i], true);
      CoverPositive(cfg, s.holds, list[i], false);
      assert Agrees(s.cells[list[i]], Cover(cfg, s.holds, list[i], true), Cover(cfg, s.holds, list[i], false));
    }
  }

  /** What INC and WRITE answer in a conserved state: INC succeeds exactly when no writer
      overlaps, WRITE exactly when nothing overlaps; the error tells which kind of hold is in
      the way, and the consistency error is never returned. */
  lemma Grant(cfg: Config, s: Lock, t: Target, writer: bool)
    requires cfg.Valid() && Conserved(cfg, s) && TargetList(cfg, t) != []
    ensures var list := TargetList(cfg, t);
            Reply(cfg, s, Acquire(t, writer)).ret
            == if Contended(cfg, s, list, true) then -WRITING
               else if writer && Contended(cfg, s, list, false) then -USING
               else 0
  {
    var list := TargetList(cfg, t);
    ListsUsable(cfg, t);
    ContendedCells(cfg, s, list);
    assert Any(s.cells, list, x => x < 0) <==> Any(s.cells, list, x => x == -1);
    if !Contended(cfg, s, list, true) {
      assert Any(s.cells, list, x => x != 0) <==> Any(s.cells, list, x => x > 0);
    }
  }

  lemma HeldCell(cfg: Config, s: Lock, h: nat, p: nat)
    requires cfg.Valid() && Conserved(cfg, s) && h < |s.holds| && p in List(cfg, s.holds[h])
    ensures p < CELLS
    ensures if s.holds[h].writer then s.cells[p] == -1 else s.cells[p] > 0
  {
    ListsUsable(cfg, s.holds[h].target);
    CoverPositive(cfg, s.holds, p, s.holds[h].writer);
    assert Agrees(s.cells[p], Cover(cfg, s.holds, p, true), Cover(cfg, s.holds, p, false));
  }

  /** A holder's own DEC or CLEAR succeeds exactly when it matches the kind of the hold; the
      wrong command is refused. */
  lemma OwnRelease(cfg: Config, s: Lock, h: nat, clear: bool)
    requires cfg.Valid() && Conserved(cfg, s)
    requires h < |s.holds| && List(cfg, s.holds[h]) != []
    ensures Reply(cfg, s, Release(h, clear)).ret
            == if clear == s.holds[h].writer then 0 else if clear then -USING else -WRITING
  {
    var list := List(cfg, s.holds[h]);
    ListsUsable(cfg, s.holds[h].target);
    forall i | 0 <= i < |list|
      ensures if s.holds[h].writer then s.cells[list[i]] == -1 else s.cells[list[i]] > 0
    {
      HeldCell(cfg, s, h, list[i]);
    }
    assert Any(s.cells, list, x => x == -1) <==> s.holds[h].writer by {
      if s.holds[h].writer { assert s.cells[list[0]] == -1; }
    }
    if !s.holds[h].writer { assert s.cells[list[0]] != -1; }
  }

  /** A DEC or CLEAR without giving up a hold, as by a client that holds nothing, keeps the
      agreement exactly when the driver refuses it. */
  lemma StrangerReleaseIff(cfg: Config, s: Lock, t: Target, clear: bool)
    requires cfg.Valid() && Conserved(cfg, s)
    ensures InRange(TargetList(cfg, t), CELLS)
    ensures var o := Control(s.cells, TargetList(cfg, t), if clear then Clear else Dec, 0);
            Conserved(cfg, Lock(o.cells, s.holds)) <==> o.ret != 0
  {
    var list := TargetList(cfg, t);
    ListsUsable(cfg, t);
    var o := Control(s.cells, list, if clear then Clear else Dec, 0);
    if o.ret == 0 {
      AddAllAt(s.cells, list, -1);
      SetAllAt(s.cells, list, 0);
      var p := list[0];
      assert p in list && Agrees(s.cells[p], Cover(cfg, s.holds, p, true), Cover(cfg, s.holds, p, false));
      assert clear ==> s.cells[p] == -1;
      assert !Agrees(o.cells[p], Cover(cfg, s.holds, p, true), Cover(cfg, s.holds, p, false));
    }
  }

  /** For example, a client that holds nothing takes a reader's hold away. */
  lemma StrangerTakesHold(cfg: Config, s: Lock, h: nat)
    requires cfg.Valid() && Conserved(cfg, s) && h < |s.holds| && List(cfg, s.holds[h]) != []
    ensures InRange(List(cfg, s.holds[h]), CELLS)
    ensures var o := Control(s.cells, List(cfg, s.holds[h]), if s.holds[h].writer then Clear else Dec, 0);
            o.ret == 0 && !Conserved(cfg, Lock(o.cells, s.holds))
  {
    OwnRelease(cfg, s, h, s.holds[h].writer);
    StrangerReleaseIff(cfg, s, s.holds[h].target, s.holds[h].writer);
  }

  // What every request keeps.

  /** Holds are only ever granted on non-empty lists. */
  predicate Granted(cfg: Config, s: Lock)
    requires cfg.Valid()
  {
    forall h | 0 <= h < |s.holds| :: List(cfg, s.holds[h]) != []
  }

  lemma {:induction false} OutsideCover(cfg: Config, holds: seq<Hold>, list: seq<nat>, p: nat, writer: bool)
    requires cfg.Valid()
    ensures p !in list ==> Cover(cfg, Outside(cfg, holds, list), p, writer) == Cover(cfg, holds, p, writer)
    ensures p in list && (forall h | 0 <= h < |holds| :: !Straddles(cfg, holds[h], list)) ==>
              Cover(cfg, Outside(cfg, holds, list), p, writer) == 0
  {
    if holds != [] {
      OutsideCover(cfg, holds[1..], list, p, writer);
      var rest := Outside(cfg, holds[1..], list);
      assert forall h | 1 <= h < |holds| :: holds[h] == holds[1..][h - 1];
      assert ([holds[0]] + rest)[1..] == rest;
      assert [] + rest == rest;
      if p in list && !Straddles(cfg, holds[0], list) && p in List(cfg, holds[0]) {
        assert Overlap(List(cfg, holds[0]), list);
      }
    }
  }

  lemma {:induction false} OutsideFrom(cfg: Config, holds: seq<Hold>, list: seq<nat>)
    requires cfg.Valid()
    ensures forall h | 0 <= h < |Outside(cfg, holds, list)| :: Outside(cfg, holds, list)[h] in holds
    ensures forall h | 0 <= h < |holds| ::
              !Within(List(cfg, holds[h]), list) ==> holds[h] in Outside(cfg, holds, list)
  {
    if holds != [] {
      OutsideFrom(cfg, holds[1..], list);
      assert forall h | 1 <= h < |holds| :: holds[h] == holds[1..][h - 1];
    }
  }

  /** A successful INC found no negative counter, a successful WRITE found only zeros. */
  lemma ControlGranted(cells: seq<int>, list: seq<nat>, writer: bool)
    requires InRange(list, |cells|)
    requires Control(cells, list, if writer then Write else Inc, 0).ret == 0
    ensures forall i | 0 <= i < |list| :: if writer then cells[list[i]] == 0 else cells[list[i]] >= 0
    ensures Control(cells, list, if writer then Write else Inc, 0).cells
            == if writer then SetAll(cells, list, -1) else AddAll(cells, list, 1)
  {
    assert forall i | 0 <= i < |list| :: !(cells[list[i]] < 0);
  }

  lemma AcquireConserves(cfg: Config, s: Lock, t: Target, writer: bool)
    requires cfg.Valid() && Conserved(cfg, s) && Granted(cfg, s)
    ensures Conserved(cfg, Step(cfg, s, Acquire(t, writer))) && Granted(cfg, Step(cfg, s, Acquire(t, writer)))
  {
    var list := TargetList(cfg, t);
    ListsUsable(cfg, t);
    if Reply(cfg, s, Acquire(t, writer)).ret == 0 {
      ControlGranted(s.cells, list, writer);
      AddAllAt(s.cells, list, 1);
      SetAllAt(s.cells, list, -1);
      var s' := Step(cfg, s, Acquire(t, writer));
      assert s'.holds == s.holds + [Hold(t, writer)];
      forall p | 0 <= p < CELLS
        ensures Agrees(s'.cells[p], Cover(cfg, s'.holds, p, true), Cover(cfg, s'.holds, p, false))
      {
        CoverAppend(cfg, s.holds, Hold(t, writer), p, true);
        CoverAppend(cfg, s.holds, Hold(t, writer), p, false);
        assert Agrees(s.cells[p], Cover(cfg, s.holds, p, true), Cover(cfg, s.holds, p, false));
      }
    }
  }

  lemma ReleaseConserves(cfg: Config, s: Lock, h: nat, clear: bool)
    requires cfg.Valid() && Conserved(cfg, s) && Granted(cfg, s) && h < |s.holds|
    ensures Conserved(cfg, Step(cfg, s, Release(h, clear))) && Granted(cfg, Step(cfg, s, Release(h, clear)))
  {
    var r := Release(h, clear);
    var list := List(cfg, s.holds[h]);
    ListsUsable(cfg, s.holds[h].target);
    OwnRelease(cfg, s, h, clear);
    if Reply(cfg, s, r).ret == 0 {
      AddAllAt(s.cells, list, -1);
      SetAllAt(s.cells, list, 0);
      var s' := Step(cfg, s, r);
      forall p | 0 <= p < CELLS
        ensures Agrees(s'.cells[p], Cover(cfg, s'.holds, p, true), Cover(cfg, s'.holds, p, false))
      {
        CoverSplit(cfg, s.holds, h, p, true);
        CoverSplit(cfg, s.holds, h, p, false);
        assert Agrees(s.cells[p], Cover(cfg, s.holds, p, true), Cover(cfg, s.holds, p, false));
      }
    }
  }

  /** A reset keeps the agreement exactly when it cuts no hold in two. */
  lemma ResetConservesIff(cfg: Config, s: Lock, t: Target)
    requires cfg.Valid() && Conserved(cfg, s) && Granted(cfg, s) && TargetList(cfg, t) != []
    ensures Conserved(cfg, Step(cfg, s, Reset(t)))
            <==> forall h | 0 <= h < |s.holds| :: !Straddles(cfg, s.holds[h], TargetList(cfg, t))
  {
    var list := TargetList(cfg, t);
    var s' := Step(cfg, s, Reset(t));
    ListsUsable(cfg, t);
    SetAllAt(s.cells, list, 0);
    if forall h | 0 <= h < |s.holds| :: !Straddles(cfg, s.holds[h], list) {
      forall p | 0 <= p < CELLS
        ensures Agrees(s'.cells[p], Cover(cfg, s'.holds, p, true), Cover(cfg, s'.holds, p, false))
      {
        OutsideCover(cfg, s.holds, list, p, true);
        OutsideCover(cfg, s.holds, list, p, false);
        assert Agrees(s.cells[p], Cover(cfg, s.holds, p, true), Cover(cfg, s.holds, p, false));
      }
    } else {
      var h :| 0 <= h < |s.holds| && Straddles(cfg, s.holds[h], list);
      var p :| p in List(cfg, s.holds[h]) && p in list;
      OutsideFrom(cfg, s.holds, list);
      CoverPositive(cfg, s'.holds, p, s.holds[h].writer);
      assert s'.cells[p] == 0;
      assert !Agrees(s'.cells[p], Cover(cfg, s'.holds, p, true), Cover(cfg, s'.holds, p, false));
    }
  }

  lemma StepConserves(cfg: Config, s: Lock, r: Request)
    requires cfg.Valid() && Conserved(cfg, s) && Granted(cfg, s) && Allowed(cfg, s, r)
    ensures Conserved(cfg, Step(cfg, s, r)) && Granted(cfg, Step(cfg, s, r))
  {
    match r
    case Acquire(t, writer) => AcquireConserves(cfg, s, t, writer);
    case Release(h, clear) => ReleaseConserves(cfg, s, h, clear);
    case Reset(t) =>
      if TargetList(cfg, t) != [] {
        ResetConservesIff(cfg, s, t);
        OutsideFrom(cfg, s.holds, TargetList(cfg, t));
      }
    case Query(_, _) =>
  }

  /** A run of requests, each allowed in the state it meets. */
  predicate Disciplined(cfg: Config, s: Lock, run: seq<Request>)
    requires cfg.Valid() && |s.cells| == CELLS
    decreases |run|
  {
    run == [] || (Allowed(cfg, s, run[0]) && |Step(cfg, s, run[0]).cells| == CELLS
                  && Disciplined(cfg, Step(cfg, s, run[0]), run[1..]))
  }

  function Run(cfg: Config, s: Lock, run: seq<Request>): Lock
    requires cfg.Valid() && |s.cells| == CELLS && Disciplined(cfg, s, run)
    decreases |run|
  {
    if run == [] then s else Run(cfg, Step(cfg, s, run[0]), run[1..])
  }

  lemma {:induction false} RunConserves(cfg: Config, s: Lock, run: seq<Request>)
    requires cfg.Valid() && Conserved(cfg, s) && Granted(cfg, s) && Disciplined(cfg, s, run)
    ensures Conserved(cfg, Run(cfg, s, run)) && Granted(cfg, Run(cfg, s, run))
    decreases |run|
  {
    if run != [] {
      StepConserves(cfg, s, run[0]);
      RunConserves(cfg, Step(cfg, s, run[0]), run[1..]);
    }
  }

  function Initial(): Lock {
    Lock(seq(CELLS, _ => 0), [])
  }

  /** Over every disciplined run of device, lane and region requests from fresh counters, each
      counter tells exactly the holds that cover it, no writer ever overlaps another hold, and
      every holder can release with the matching command. */
  lemma LockTheorem(cfg: Config, run: seq<Request>)
    requires cfg.Valid() && Disciplined(cfg, Initial(), run)
    ensures Conserved(cfg, Run(cfg, Initial(), run))
    ensures var s := Run(cfg, Initial(), run);
            && (forall i, j | 0 <= i < j < |s.holds| ::
                  Overlap(List(cfg, s.holds[i]), List(cfg, s.holds[j])) ==> !s.holds[i].writer && !s.holds[j].writer)
            && (forall h | 0 <= h < |s.holds| :: Reply(cfg, s, Release(h, s.holds[h].writer)).ret == 0)
  {
    RunConserves(cfg, Initial(), run);
    var s := Run(cfg, Initial(), run);
    forall i, j | 0 <= i < j < |s.holds| && Overlap(List(cfg, s.holds[i]), List(cfg, s.holds[j]))
      ensures !s.holds[i].writer && !s.holds[j].writer
    {
      Exclusion(cfg, s, i, j);
    }
    forall h | 0 <= h < |s.holds|
      ensures Reply(cfg, s, Release(h, s.holds[h].writer)).ret == 0
    {
      OwnRelease(cfg, s, h, s.holds[h].writer);
    }
  }

  /** Whatever is compiled in, a reset of the whole device cuts no hold in two, so it is always
      allowed. */
  lemma DeviceResetAllowed(cfg: Config, s: Lock)
    requires cfg.Valid()
    ensures Allowed(cfg, s, Reset(Device))
  {
    forall h | 0 <= h < |s.holds|
      ensures !Straddles(cfg, s.holds[h], DevList(cfg))
    {
      DeviceCutsNone(cfg, s.holds[h].target);
    }
  }

  /** A run in which holders release only what they hold and every RST is of the whole device,
      the only region the public entry dispatches. */
  predicate HoldersRun(cfg: Config, s: Lock, run: seq<Request>)
    requires cfg.Valid() && |s.cells| == CELLS
    decreases |run|
  {
    run == [] || (Named(s, run[0]) && (run[0].Reset? ==> run[0].target == Device)
                  && |Step(cfg, s, run[0]).cells| == CELLS && HoldersRun(cfg, Step(cfg, s, run[0]), run[1..]))
  }

  /** Such a run needs no further discipline. */
  lemma {:induction false} HoldersDisciplined(cfg: Config, s: Lock, run: seq<Request>)
    requires cfg.Valid() && |s.cells| == CELLS && HoldersRun(cfg, s, run)
    ensures Disciplined(cfg, s, run)
    decreases |run|
  {
    if run != [] {
      DeviceResetAllowed(cfg, s);
      HoldersDisciplined(cfg, Step(cfg, s, run[0]), run[1..]);
    }
  }

  /** It drops all holds exactly when no region hold names a module left out of counting. */
  lemma DeviceResetDropsAllIff(cfg: Config, s: Lock)
    requires cfg.Valid() && |s.cells| == CELLS && Granted(cfg, s)
    ensures Step(cfg, s, Reset(Device)).holds == []
            <==> forall h | 0 <= h < |s.holds| :: Counted(cfg, s.holds[h].target)
  {
    var list := DevList(cfg);
    forall h | 0 <= h < |s.holds|
      ensures Within(List(cfg, s.holds[h]), list) <==> Counted(cfg, s.holds[h].target)
    {
      assert List(cfg, s.holds[h])[0] in List(cfg, s.holds[h]);
      if Counted(cfg, s.holds[h].target) {
        CountedInDevice(cfg, s.holds[h].target);
      } else {
        UncountedOutside(cfg, s.holds[h].target);
      }
    }
    if forall h | 0 <= h < |s.holds| :: Counted(cfg, s.holds[h].target) {
      AllWithin(cfg, s.holds, list);
      if s.holds != [] { assert List(cfg, s.holds[0])[0] in list; }
    } else {
      OutsideFrom(cfg, s.holds, list);
    }
  }

  /** The target is not a region of a module left out of counting. */
  predicate Counted(cfg: Config, t: Target) {
    t.Region? ==> t.mod in cfg.enabled
  }

  lemma DeviceCutsNone(cfg: Config, t: Target)
    requires cfg.Valid()
    ensures Within(TargetList(cfg, t), DevList(cfg)) || !Overlap(TargetList(cfg, t), DevList(cfg))
  {
    if Counted(cfg, t) { CountedInDevice(cfg, t); } else { UncountedOutside(cfg, t); }
  }

  lemma {:induction false} AllWithin(cfg: Config, holds: seq<Hold>, list: seq<nat>)
    requires cfg.Valid() && forall h | 0 <= h < |holds| :: Within(List(cfg, holds[h]), list)
    ensures Outside(cfg, holds, list) == []
  {
    if holds != [] {
      assert forall h | 1 <= h < |holds| :: holds[h] == holds[1..][h - 1];
      AllWithin(cfg, holds[1..], list);
    }
  }

  lemma CountedInDevice(cfg: Config, t: Target)
    requires cfg.Valid() && Counted(cfg, t)
    ensures Within(TargetList(cfg, t), DevList(cfg))
  {
    match t
    case Device =>
    case Region(m, lane) =>
      if TargetList(cfg, t) != [] { CellInDevice(cfg, m, lane); }
    case Lane(lane) =>
      if TargetList(cfg, t) != [] { LaneInDevice(cfg, lane, 5); }
  }

  lemma UncountedOutside(cfg: Config, t: Target)
    requires cfg.Valid() && !Counted(cfg, t)
    ensures !Overlap(TargetList(cfg, t), DevList(cfg))
  {
    if 0 <= t.rlane < LANE_MAX { UncountedCell(cfg, 8, t.mod, t.rlane); }
  }

  lemma {:induction false} UncountedCell(cfg: Config, k: nat, m: Module, lane: nat)
    requires cfg.Valid() && k <= 8 && m !in cfg.enabled && lane < LANE_MAX
    ensures Cell(m, lane) !in DevPrefix(cfg, k)
  {
    if k > 0 {
      UncountedCell(cfg, k - 1, m, lane);
      var other := MODULES[k - 1];
      if other in cfg.enabled {
        ModuleListFacts(other, cfg.num[other]);
        assert Ordinal(other) == k - 1;
        assert other != m;
        assert Ordinal(other) != Ordinal(m);
      }
    }
  }

  lemma {:induction false} LaneInDevice(cfg: Config, lane: int, k: nat)
    requires cfg.Valid() && k <= 5 && !LaneMissing(cfg, lane, k) && 0 <= lane < LANE_MAX
    ensures Within(LanePrefix(cfg, lane, k), DevList(cfg))
  {
    if k > 0 {
      LaneInDevice(cfg, lane, k - 1);
      if LANE_MODULES[k - 1] in cfg.enabled { CellInDevice(cfg, LANE_MODULES[k - 1], lane); }
    }
  }

  lemma CellInDevice(cfg: Config, m: Module, lane: nat)
    requires cfg.Valid() && m in cfg.enabled && lane < cfg.num[m] && lane < LANE_MAX
    ensures Cell(m, lane) in DevList(cfg)
  {
    DevPrefixContains(cfg, 8, m, lane);
  }

  // A concrete cut: the device is read-held and one of its regions is reset.

  /** Two single-lane modules. */
  const TWO_MODULES := Config({Global, Chain}, map[Global := 1, Chain := 1, Direct := 0, Lldma := 0, Ptu := 0,
                                                   Conv := 0, Func := 0, Cms := 0])

  lemma TwoModules()
    ensures TWO_MODULES.Valid() && DevList(TWO_MODULES) == [Cell(Global, 0), Cell(Chain, 0)]
  {
    forall m: Module
      ensures m in TWO_MODULES.num && TWO_MODULES.num[m] <= Lanes(m)
    {
      match m
      case Global => case Chain => case Direct => case Lldma =>
      case Ptu => case Conv => case Func => case Cms =>
    }
    assert DevPrefix(TWO_MODULES, 1) == [Cell(Global, 0)];
    assert DevPrefix(TWO_MODULES, 2) == [Cell(Global, 0), Cell(Chain, 0)];
    assert DevPrefix(TWO_MODULES, 5) == DevPrefix(TWO_MODULES, 2);
  }

  /** From fresh counters, a granted device INC followed by a region RST leaves the counters in
      disagreement, and the holder's own DEC is refused. */
  lemma RegionResetCutsHold()
    ensures TWO_MODULES.Valid()
    ensures var s1 := Step(TWO_MODULES, Initial(), Acquire(Device, false));
            var s2 := Step(TWO_MODULES, s1, Reset(Region(Chain, 0)));
            && s1.holds == s2.holds == [Hold(Device, false)]
            && !Conserved(TWO_MODULES, s2) && Reply(TWO_MODULES, s2, Release(0, false)).ret == -EBUSY
  {
    TwoModules();
    var s1 := Step(TWO_MODULES, Initial(), Acquire(Device, false));
    DeviceAcquired(TWO_MODULES, DevList(TWO_MODULES));
    CutShows(TWO_MODULES, s1, Cell(Global, 0), Cell(Chain, 0));
  }

  lemma DeviceAcquired(cfg: Config, list: seq<nat>)
    requires cfg.Valid() && list == DevList(cfg) && list != []
    ensures var s1 := Step(cfg, Initial(), Acquire(Device, false));
            && s1.holds == [Hold(Device, false)] && Conserved(cfg, s1) && Granted(cfg, s1)
  {
    AcquireConserves(cfg, Initial(), Device, false);
    Grant(cfg, Initial(), Device, false);
  }

  lemma CutShows(cfg: Config, s1: Lock, kept: nat, cut: nat)
    requires cfg.Valid() && Conserved(cfg, s1) && Granted(cfg, s1) && s1.holds == [Hold(Device, false)]
    requires kept != cut && kept in DevList(cfg) && cut in DevList(cfg) && TargetList(cfg, Region(Chain, 0)) == [cut]
    ensures var s2 := Step(cfg, s1, Reset(Region(Chain, 0)));
            s2.holds == s1.holds && !Conserved(cfg, s2) && Reply(cfg, s2, Release(0, false)).ret == -EBUSY
  {
    var list, s2 := DevList(cfg), Step(cfg, s1, Reset(Region(Chain, 0)));
    ListsUsable(cfg, Device);
    assert kept !in [cut] && cut in [cut];
    assert Straddles(cfg, s1.holds[0], [cut]);
    ResetConservesIff(cfg, s1, Region(Chain, 0));
    assert s2.holds == s1.holds by {
      assert Outside(cfg, s1.holds[1..], [cut]) == [];
    }
    SetAllAt(s1.cells, [cut], 0);
    forall i | 0 <= i < |list|
      ensures s2.cells[list[i]] >= 0
    {
      HeldCell(cfg, s1, 0, list[i]);
    }
    DecRefused(s2.cells, list, cut);
  }

  lemma DecRefused(cells: seq<int>, list: seq<nat>, cut: nat)
    requires InRange(list, |cells|) && cut in list && cells[cut] == 0
    requires forall i | 0 <= i < |list| :: cells[list[i]] >= 0
    ensures Control(cells, list, Dec, 0).ret == -EBUSY
  {
    var i :| 0 <= i < |list| && list[i] == cut;
    assert cells[list[i]] == 0;
  }
}

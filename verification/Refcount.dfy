/** Reference counters of a device. A command runs over a list of counters; the list is
    assembled for the whole device, for one lane, or for one region. */
module Refcount {
  import opened Common

  datatype Command = Inc | Dec | Write | Clear | Get | Rst | Unknown

  const DEV_LIST_SIZE: nat := 29
  const LANE_LIST_SIZE: nat := 6

  const WRITING: int := 3
  const USING: int := 4

  /** The modules compiled in with reference counting, and the lane count of every module.
      Both stay fixed while commands run. */
  datatype Config = Config(enabled: set<Module>, num: map<Module, nat>) {
    /** Lane counts the module discovery can produce: up to four lanes, or one for the three
        single-lane modules. */
    predicate Valid() {
      forall m: Module :: m in num && num[m] <= Lanes(m)
    }
  }

  // The order in which the device list visits the modules.
  const MODULES: seq<Module> := [Global, Chain, Direct, Lldma, Ptu, Conv, Func, Cms]

  // The modules a lane list visits.
  const LANE_MODULES: seq<Module> := [Chain, Direct, Ptu, Conv, Func]

  // Number of counters: four per module.
  const CELLS: nat := 32

  /** The counter of one lane of one module. A C pointer into the `refcount` arrays is modelled
      by the position of its target among all counters. */
  function Cell(m: Module, lane: nat): (p: nat)
    requires lane < LANE_MAX
    ensures p < CELLS
  {
    LANE_MAX * Ordinal(m) + lane
  }

  predicate InRange(list: seq<nat>, n: nat) {
    forall i | 0 <= i < |list| :: list[i] < n
  }

  predicate Distinct(list: seq<nat>) {
    forall i, j | 0 <= i < j < |list| :: list[i] != list[j]
  }

  /** A list the commands may run over. */
  predicate Usable(list: seq<nat>, n: nat) {
    InRange(list, n) && Distinct(list)
  }

  // What the list helpers compute. All of them visit the list from its head.

  function AddAll(cells: seq<int>, list: seq<nat>, add: int): (r: seq<int>)
    requires InRange(list, |cells|)
    ensures |r| == |cells|
  {
    if list == [] then cells
    else
      var p := list[|list| - 1];
      var before := AddAll(cells, list[..|list| - 1], add);
      before[p := before[p] + add]
  }

  function SetAll(cells: seq<int>, list: seq<nat>, value: int): (r: seq<int>)
    requires InRange(list, |cells|)
    ensures |r| == |cells|
  {
    if list == [] then cells
    else SetAll(cells, list[..|list| - 1], value)[list[|list| - 1] := value]
  }

  function Sum(cells: seq<int>, list: seq<nat>): int
    requires InRange(list, |cells|)
  {
    if list == [] then 0 else Sum(cells, list[..|list| - 1]) + cells[list[|list| - 1]]
  }

  predicate Any(cells: seq<int>, list: seq<nat>, test: int -> bool)
    requires InRange(list, |cells|)
  {
    exists i | 0 <= i < |list| :: test(cells[list[i]])
  }

  /** On a list without repetitions every listed counter moves by `add` once and every other
      counter keeps its value. */
  lemma {:induction false} AddAllAt(cells: seq<int>, list: seq<nat>, add: int)
    requires Usable(list, |cells|)
    ensures forall p | 0 <= p < |cells| :: AddAll(cells, list, add)[p] == cells[p] + if p in list then add else 0
  {
    if list != [] {
      var init := list[..|list| - 1];
      AddAllAt(cells, init, add);
      assert list == init + [list[|list| - 1]];
    }
  }

  lemma {:induction false} SetAllAt(cells: seq<int>, list: seq<nat>, value: int)
    requires InRange(list, |cells|)
    ensures forall p | 0 <= p < |cells| :: SetAll(cells, list, value)[p] == if p in list then value else cells[p]
  {
    if list != [] {
      var init := list[..|list| - 1];
      SetAllAt(cells, init, value);
      assert list == init + [list[|list| - 1]];
    }
  }

  /** Result of a command: return value, counters afterwards, and what GET reports. */
  datatype Outcome = Outcome(ret: int, cells: seq<int>, got: int)

  /** The command switch. `got` is what the output parameter holds on entry. */
  function Control(cells: seq<int>, list: seq<nat>, cmd: Command, got: int): Outcome
    requires InRange(list, |cells|)
  {
    var writing := Any(cells, list, x => x == -1);
    var negative := Any(cells, list, x => x < 0);
    if list == [] then Outcome(-ENODEV, cells, got)
    else
      match cmd
      case Inc =>
        if writing then Outcome(-WRITING, cells, got)
        else if negative then Outcome(-EFAULT, cells, got)
        else Outcome(0, AddAll(cells, list, 1), got)
      case Dec =>
        if writing then Outcome(-WRITING, cells, got)
        else if negative then Outcome(-EFAULT, cells, got)
        else if Any(cells, list, x => x == 0) then Outcome(-EBUSY, cells, got)
        else Outcome(0, AddAll(cells, list, -1), got)
      case Write =>
        if writing then Outcome(-WRITING, cells, got)
        else if negative then Outcome(-EFAULT, cells, got)
        else if Any(cells, list, x => x != 0) then Outcome(-USING, cells, got)
        else Outcome(0, SetAll(cells, list, -1), got)
      case Clear =>
        if Any(cells, list, x => x != -1) then Outcome(-USING, cells, got)
        else Outcome(0, SetAll(cells, list, 0), got)
      case Rst => Outcome(0, SetAll(cells, list, 0), got)
      case Get => Outcome(0, cells, Sum(cells, list))
      case Unknown => Outcome(-EINVAL, cells, got)
  }

  /** Cells of one module, lanes `0..n`. */
  function ModuleList(m: Module, n: nat): seq<nat>
    requires n <= LANE_MAX
  {
    seq(n, lane requires 0 <= lane < n => Cell(m, lane))
  }

  /** The device list restricted to the first `k` modules. */
  function DevPrefix(cfg: Config, k: nat): (list: seq<nat>)
    requires cfg.Valid() && k <= 8
  {
    if k == 0 then []
    else
      var m := MODULES[k - 1];
      DevPrefix(cfg, k - 1) + if m in cfg.enabled then ModuleList(m, cfg.num[m]) else []
  }

  function DevList(cfg: Config): seq<nat>
    requires cfg.Valid()
  {
    DevPrefix(cfg, 8)
  }

  /** `lane >= num`, an `int` compared with an unsigned lane count */
  predicate Beyond(lane: int, num: nat) {
    lane % 0x1_0000_0000 >= num
  }

  /** The lane list over the first `k` lane modules, or nothing when one of them lacks the lane. */
  function LanePrefix(cfg: Config, lane: int, k: nat): (list: seq<nat>)
    requires cfg.Valid() && k <= 5 && !LaneMissing(cfg, lane, k) && 0 <= lane < LANE_MAX
  {
    if k == 0 then []
    else
      var m := LANE_MODULES[k - 1];
      LanePrefix(cfg, lane, k - 1) + if m in cfg.enabled then [Cell(m, lane)] else []
  }

  /** Some enabled module among the first `k` lane modules does not have the lane. */
  predicate LaneMissing(cfg: Config, lane: int, k: nat)
    requires cfg.Valid() && k <= 5
  {
    exists j | 0 <= j < k :: LANE_MODULES[j] in cfg.enabled && Beyond(lane, cfg.num[LANE_MODULES[j]])
  }

  datatype Target = Device | Lane(lane: int) | Region(mod: Module, rlane: int)

  /** The list a target stands for; the empty list makes every command answer -ENODEV. */
  function TargetList(cfg: Config, t: Target): seq<nat>
    requires cfg.Valid()
  {
    match t
    case Device => DevList(cfg)
    case Lane(lane) =>
      if 0 <= lane < LANE_MAX && !LaneMissing(cfg, lane, 5) then LanePrefix(cfg, lane, 5) else []
    case Region(m, lane) =>
      if Beyond(lane, cfg.num[m]) || !(0 <= lane < LANE_MAX) then [] else [Cell(m, lane)]
  }

  lemma ModuleListFacts(m: Module, n: nat)
    requires n <= LANE_MAX
    ensures Usable(ModuleList(m, n), CELLS) && |ModuleList(m, n)| == n
    ensures forall i | 0 <= i < n ::
              LANE_MAX * Ordinal(m) <= ModuleList(m, n)[i] == LANE_MAX * Ordinal(m) + i < LANE_MAX * (Ordinal(m) + 1)
  {
  }

  /** Positions in the device prefix belong to earlier modules, and no position repeats. */
  lemma {:induction false} DevPrefixUsable(cfg: Config, k: nat)
    requires cfg.Valid() && k <= 8
    ensures Usable(DevPrefix(cfg, k), CELLS) && InRange(DevPrefix(cfg, k), LANE_MAX * k)
    ensures |DevPrefix(cfg, k)| <= SlotsFor(k)
  {
    if k > 0 {
      DevPrefixUsable(cfg, k - 1);
      var m := MODULES[k - 1];
      assert Ordinal(m) == k - 1;
      if m in cfg.enabled { ModuleListFacts(m, cfg.num[m]); }
    }
  }

  /** The device list contains every lane of every enabled module. */
  lemma {:induction false} DevPrefixContains(cfg: Config, k: nat, m: Module, lane: nat)
    requires cfg.Valid() && k <= 8 && Ordinal(m) < k
    requires m in cfg.enabled && lane < cfg.num[m] && lane < LANE_MAX
    ensures Cell(m, lane) in DevPrefix(cfg, k)
  {
    assert MODULES[Ordinal(m)] == m;
    if Ordinal(m) == k - 1 {
      assert ModuleList(m, cfg.num[m])[lane] == Cell(m, lane);
    } else {
      DevPrefixContains(cfg, k - 1, m, lane);
    }
  }

  /** Entries the first `k` modules can contribute to the device list. */
  function SlotsFor(k: nat): nat
    requires k <= 8
  {
    if k == 0 then 0 else SlotsFor(k - 1) + Lanes(MODULES[k - 1])
  }

  /** The device list names existing counters, each once, and leaves room for the sentinel. */
  lemma DevListFits(cfg: Config)
    requires cfg.Valid()
    ensures Usable(DevList(cfg), CELLS) && |DevList(cfg)| < DEV_LIST_SIZE
  {
    DevPrefixUsable(cfg, 8);
    assert SlotsFor(8) == 23;
  }

  lemma {:induction false} LanePrefixUsable(cfg: Config, lane: int, k: nat)
    requires cfg.Valid() && k <= 5 && !LaneMissing(cfg, lane, k) && 0 <= lane < LANE_MAX
    ensures Usable(LanePrefix(cfg, lane, k), CELLS) && |LanePrefix(cfg, lane, k)| <= k
    ensures forall i | 0 <= i < |LanePrefix(cfg, lane, k)| ::
              exists j | 0 <= j < k :: LanePrefix(cfg, lane, k)[i] == Cell(LANE_MODULES[j], lane)
  {
    if k > 0 { LanePrefixUsable(cfg, lane, k - 1); }
  }

  lemma LaneListUsable(cfg: Config, lane: int)
    requires cfg.Valid()
    ensures Usable(TargetList(cfg, Lane(lane)), CELLS) && |TargetList(cfg, Lane(lane))| < LANE_LIST_SIZE
  {
    if 0 <= lane < LANE_MAX && !LaneMissing(cfg, lane, 5) { LanePrefixUsable(cfg, lane, 5); }
  }

  class RefcountDevice {
    const refcount: array<int>

    constructor ()
      ensures refcount.Length == CELLS && fresh(refcount)
      ensures forall p | 0 <= p < CELLS :: refcount[p] == 0
    {
      refcount := new int[CELLS](_ => 0);
    }

    method AddRefcountList(list: seq<nat>, add: int)
      requires InRange(list, refcount.Length)
      modifies refcount
      ensures refcount[..] == AddAll(old(refcount[..]), list, add)
    {
      var index := 0;
      while index < |list|
        invariant 0 <= index <= |list|
        invariant refcount[..] == AddAll(old(refcount[..]), list[..index], add)
      {
        assert list[..index + 1][..index] == list[..index];
        refcount[list[index]] := refcount[list[index]] + add;
        index := index + 1;
      }
      assert list[..index] == list;
    }

    method SetRefcountList(list: seq<nat>, value: int)
      requires InRange(list, refcount.Length)
      modifies refcount
      ensures refcount[..] == SetAll(old(refcount[..]), list, value)
    {
      var index := 0;
      while index < |list|
        invariant 0 <= index <= |list|
        invariant refcount[..] == SetAll(old(refcount[..]), list[..index], value)
      {
        assert list[..index + 1][..index] == list[..index];
        refcount[list[index]] := value;
        index := index + 1;
      }
      assert list[..index] == list;
    }

    method GetRefcountList(list: seq<nat>) returns (got: int)
      requires InRange(list, refcount.Length)
      ensures got == Sum(refcount[..], list)
    {
      got := 0;
      var index := 0;
      while index < |list|
        invariant 0 <= index <= |list|
        invariant got == Sum(refcount[..], list[..index])
      {
        assert list[..index + 1][..index] == list[..index];
        got := got + refcount[list[index]];
        index := index + 1;
      }
      assert list[..index] == list;
    }

    method IsRefcountAny(list: seq<nat>, clb: int -> bool) returns (any: bool)
      requires InRange(list, refcount.Length)
      ensures any <==> Any(refcount[..], list, clb)
    {
      var index := 0;
      while index < |list|
        invariant 0 <= index <= |list|
        invariant forall i | 0 <= i < index :: !clb(refcount[list[i]])
      {
        if clb(refcount[list[index]]) {
          assert clb(refcount[..][list[index]]);
          return true;
        }
        index := index + 1;
      }
      return false;
    }

    method ControlRefcountStatus(list: seq<nat>, cmd: Command, got0: int) returns (ret: int, got: int)
      requires InRange(list, refcount.Length)
      modifies refcount
      ensures Outcome(ret, refcount[..], got) == Control(old(refcount[..]), list, cmd, got0)
    {
      got := got0;
      if list == [] {
        return -ENODEV, got;
      }
      var writing := IsRefcountAny(list, x => x == -1);
      var negative := IsRefcountAny(list, x => x < 0);
      match cmd {
        case Inc =>
          if writing { return -WRITING, got; }
          if negative { return -EFAULT, got; }
          AddRefcountList(list, 1);
        case Dec =>
          if writing { return -WRITING, got; }
          if negative { return -EFAULT, got; }
          var zero := IsRefcountAny(list, x => x == 0);
          if zero { return -EBUSY, got; }
          AddRefcountList(list, -1);
        case Write =>
          if writing { return -WRITING, got; }
          if negative { return -EFAULT, got; }
          var used := IsRefcountAny(list, x => x != 0);
          if used { return -USING, got; }
          SetRefcountList(list, -1);
        case Clear =>
          var other := IsRefcountAny(list, x => x != -1);
          if other { return -USING, got; }
          SetRefcountList(list, 0);
        case Rst =>
          SetRefcountList(list, 0);
        case Get =>
          got := GetRefcountList(list);
        case Unknown =>
          return -EINVAL, got;
      }
      return 0, got;
    }

    /** Assembles the pointers of one module after those of the modules before it. */
    method AppendModule(list: seq<nat>, m: Module, num: nat) returns (r: seq<nat>)
      requires num <= LANE_MAX
      ensures r == list + ModuleList(m, num)
    {
      r := list;
      var lane := 0;
      while lane < num
        invariant 0 <= lane <= num
        invariant r == list + ModuleList(m, lane)
      {
        r := r + [Cell(m, lane)];
        lane := lane + 1;
      }
    }

    method ControlRefcountDev(cfg: Config, cmd: Command, got0: int) returns (ret: int, got: int)
      requires cfg.Valid() && refcount.Length == CELLS
      modifies refcount
      ensures InRange(TargetList(cfg, Device), CELLS) && |TargetList(cfg, Device)| < DEV_LIST_SIZE
      ensures Outcome(ret, refcount[..], got) == Control(old(refcount[..]), TargetList(cfg, Device), cmd, got0)
    {
      var list: seq<nat> := [];
      var k := 0;
      while k < 8
        invariant 0 <= k <= 8
        invariant list == DevPrefix(cfg, k)
        invariant refcount[..] == old(refcount[..])
      {
        if MODULES[k] in cfg.enabled {
          list := AppendModule(list, MODULES[k], cfg.num[MODULES[k]]);
        }
        k := k + 1;
      }
      assert list == DevList(cfg);
      DevListFits(cfg);
      ret, got := ControlRefcountStatus(list, cmd, got0);
    }

    /** Assembles the pointers of one lane, or finds an enabled module without that lane. */
    method AppendLane(cfg: Config, lane: int) returns (missing: bool, list: seq<nat>)
      requires cfg.Valid() && -0x8000_0000 <= lane < 0x8000_0000
      ensures missing <==> LaneMissing(cfg, lane, 5)
      ensures !missing ==> list == TargetList(cfg, Lane(lane)) && |list| < LANE_LIST_SIZE
    {
      list := [];
      var k := 0;
      while k < 5
        invariant 0 <= k <= 5 && |list| <= k
        invariant !LaneMissing(cfg, lane, k)
        invariant !(0 <= lane < LANE_MAX) ==> list == []
        invariant 0 <= lane < LANE_MAX ==> list == LanePrefix(cfg, lane, k)
      {
        var m := LANE_MODULES[k];
        if m in cfg.enabled {
          if Beyond(lane, cfg.num[m]) {
            return true, [];
          }
          list := list + [Cell(m, lane)];
        }
        k := k + 1;
      }
      return false, list;
    }

    method ControlRefcountLane(cfg: Config, lane: int, cmd: Command, got0: int) returns (ret: int, got: int)
      requires cfg.Valid() && refcount.Length == CELLS && -0x8000_0000 <= lane < 0x8000_0000
      modifies refcount
      ensures InRange(TargetList(cfg, Lane(lane)), CELLS) && |TargetList(cfg, Lane(lane))| < LANE_LIST_SIZE
      ensures Outcome(ret, refcount[..], got) == Control(old(refcount[..]), TargetList(cfg, Lane(lane)), cmd, got0)
    {
      LaneListUsable(cfg, lane);
      var missing, list := AppendLane(cfg, lane);
      if missing {
        return -ENODEV, got0;
      }
      ret, got := ControlRefcountStatus(list, cmd, got0);
    }

    method ControlRefcountRegion(cfg: Config, m: Module, lane: int, cmd: Command, got0: int)
      returns (ret: int, got: int)
      requires cfg.Valid() && refcount.Length == CELLS && -0x8000_0000 <= lane < 0x8000_0000
      modifies refcount
      ensures InRange(TargetList(cfg, Region(m, lane)), CELLS)
      ensures Outcome(ret, refcount[..], got) == Control(old(refcount[..]), TargetList(cfg, Region(m, lane)), cmd, got0)
    {
      var list := if !Beyond(lane, cfg.num[m]) then [Cell(m, lane)] else [];
      ret, got := ControlRefcountStatus(list, cmd, got0);
    }

    /** The public entry: only the whole-device region is dispatched. */
    method FpgaControlRefcount(cfg: Config, cmd: Command, wholeDevice: bool, got0: int) returns (ret: int, got: int)
      requires cfg.Valid() && refcount.Length == CELLS
      modifies refcount
      ensures InRange(TargetList(cfg, Device), CELLS)
      ensures Outcome(ret, refcount[..], got)
              == if wholeDevice then Control(old(refcount[..]), TargetList(cfg, Device), cmd, got0)
                 else Outcome(-EINVAL, old(refcount[..]), got0)
    {
      DevListFits(cfg);
      if wholeDevice {
        ret, got := ControlRefcountDev(cfg, cmd, got0);
      } else {
        return -EINVAL, got0;
      }
    }
  }
}

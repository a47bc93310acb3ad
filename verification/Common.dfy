/** What several parts of the driver share: modules, lanes and kernel error numbers. */
module Common {
  datatype Module = Global | Chain | Direct | Lldma | Ptu | Conv | Func | Cms

  const LANE_MAX: nat := 4

  const ENOMEM: int := 12
  const EFAULT: int := 14
  const EBUSY: int := 16
  const ENODEV: int := 19
  const EINVAL: int := 22

  /** The place of a module in address order, which is also the order of the device list. */
  function Ordinal(m: Module): (k: nat)
    ensures k < 8
  {
    match m
    case Global => 0 case Chain => 1 case Direct => 2 case Lldma => 3
    case Ptu => 4 case Conv => 5 case Func => 6 case Cms => 7
  }

  /** At most this many lanes: the single-lane modules have one. */
  function Lanes(m: Module): nat {
    if m in {Global, Lldma, Cms} then 1 else LANE_MAX
  }
}

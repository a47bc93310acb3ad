/** Register addresses: module base, plus length per lane times lane, plus offset. */
module Addressing {
  import opened Common

  function Base(m: Module): nat {
    match m
    case Global => 0x0 case Chain => 0x1000 case Direct => 0x5000 case Lldma => 0x1_0000
    case Ptu => 0x2_0000 case Conv => 0x2_4000 case Func => 0x2_5000 case Cms => 0x4_0000
  }

  function Len(m: Module): nat {
    match m
    case Conv => 0x400
    case Lldma => 0x1_0000
    case Cms => 0x4_0000
    case _ => 0x1000
  }

  /** One register of one lane of a module. An access reads or writes four bytes, so registers
      start at multiples of four. */
  datatype Register = Register(mod: Module, lane: nat, offset: nat) {
    predicate Exists() {
      lane < Lanes(mod) && offset < Len(mod) && offset % 4 == 0
    }
  }

  /** The 32-bit offset the accessors compute. */
  function Address(r: Register): nat {
    (Base(r.mod) + Len(r.mod) * r.lane + r.offset) % 0x1_0000_0000
  }

  /** Every register of a module lies in the module's own stretch, which ends before the next. */
  lemma Stretch(r: Register)
    requires r.Exists()
    ensures Address(r) == Base(r.mod) + Len(r.mod) * r.lane + r.offset
    ensures Base(r.mod) <= Address(r) < Base(r.mod) + Len(r.mod) * Lanes(r.mod)
    ensures forall m: Module | Ordinal(r.mod) < Ordinal(m) :: Base(r.mod) + Len(r.mod) * Lanes(r.mod) <= Base(m)
  {
    match r.mod
    case Conv =>
    case Lldma =>
    case Cms =>
    case _ =>
  }

  /** Different registers have different addresses. */
  lemma Injective(a: Register, b: Register)
    requires a.Exists() && b.Exists() && Address(a) == Address(b)
    ensures a == b
  {
    Stretch(a);
    Stretch(b);
    assert Ordinal(a.mod) == Ordinal(b.mod);
    assert a.mod == b.mod;
    match a.mod
    case Conv =>
    case Lldma =>
    case Cms =>
    case _ =>
  }

  /** The four bytes of different registers do not overlap. */
  lemma WordsApart(a: Register, b: Register)
    requires a.Exists() && b.Exists() && a != b
    ensures Address(a) + 4 <= Address(b) || Address(b) + 4 <= Address(a)
  {
    Aligned(a);
    Aligned(b);
    if Address(a) == Address(b) { Injective(a, b); }
  }

  lemma Aligned(r: Register)
    requires r.Exists()
    ensures Address(r) % 4 == 0
  {
    Stretch(r);
    match r.mod
    case Conv => assert Len(r.mod) * r.lane == 4 * (0x100 * r.lane);
    case Lldma =>
    case Cms =>
    case _ => assert Len(r.mod) * r.lane == 4 * (0x400 * r.lane);
  }

  /** The register space of a device. */
  class RegisterSpace {
    var memory: map<nat, nat>

    constructor () {
      memory := map[];
    }

    /** What an accessor reads, if it was ever written. */
    function Value(r: Register): (v: nat)
      reads this
    {
      if Address(r) in memory then memory[Address(r)] else 0
    }

    /** A write through one accessor is read back through it and through no other. */
    method RegWrite(r: Register, value: nat)
      requires r.Exists()
      modifies this
      ensures Value(r) == value
      ensures forall q: Register | q.Exists() && q != r :: Value(q) == old(Value(q))
    {
      memory := memory[Address(r) := value];
      forall q: Register | q.Exists() && q != r
        ensures Address(q) != Address(r)
      {
        if Address(q) == Address(r) { Injective(q, r); }
      }
    }
  }

  /** The offset bound is needed: one length further on lies the next lane. */
  lemma OffsetBoundNeeded(m: Module, lane: nat)
    requires lane + 1 < Lanes(m)
    ensures Address(Register(m, lane, Len(m))) == Address(Register(m, lane + 1, 0))
  {
    assert Len(m) * (lane + 1) == Len(m) * lane + Len(m);
  }
}

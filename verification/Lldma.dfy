/** The DMA channel driver: slots, channel registers, and the calls on a file handle. */
module Lldma {
  import opened Bits
  import opened Common
  import opened LldmaSlots
  import opened LldmaRegs
  import opened LldmaOwnership

  const DRAIN_POLLS: nat := 30

  /** A command queue: its ring, the driver's heads, and the bytes a user may map. */
  datatype Queue = Queue(ring: seq<nat>, writeHead: nat, readHead: nat, memSize: nat)

  type Queues = map<SlotId, Queue>

  /** An empty ring. */
  function Blank(q: Queue): Queue {
    q.(ring := seq(|q.ring|, _ => 0))
  }

  /** Both heads taken from the top byte of the 32-bit control register. */
  function AtHead(q: Queue, data: u32): Queue {
    q.(writeHead := data / 0x100_0000, readHead := data / 0x100_0000)
  }

  /** Starting reads the heads back, for a queue direction and an available channel. */
  function Rewound(qs: Queues, available: nat, chid: nat, dir: Dir, data: u32): Queues {
    if chid >= available || QueueBank(dir).None? || SlotId(RegisterBank(dir), chid) !in qs then qs
    else qs[SlotId(RegisterBank(dir), chid) := AtHead(qs[SlotId(RegisterBank(dir), chid)], data)]
  }

  class LldmaDevice {
    const enqueues: array<Slot>   // receive
    const dequeues: array<Slot>   // transmit
    const rings: SlotId -> nat    // physical addresses of the command rings
    var queues: Queues            // the command queues behind the slots
    var regs: Regs
    var available: nat

    ghost predicate Sized() {
      enqueues.Length == QUEUE_PAIRS && dequeues.Length == QUEUE_PAIRS && enqueues != dequeues
    }

    ghost predicate Valid()
      reads this
    {
      Sized() && regs.Valid() && available <= QUEUE_PAIRS && queues.Keys == AllSlots()
    }

    /** The slots of both directions. */
    ghost function Slots(): (q: Slots)
      requires Sized()
      reads enqueues, dequeues
      ensures q.Keys == AllSlots()
      ensures forall c | 0 <= c < QUEUE_PAIRS :: q[SlotId(Rx, c)] == enqueues[c] && q[SlotId(Tx, c)] == dequeues[c]
    {
      map s | s in AllSlots() :: if s.bank == Rx then enqueues[s.chid] else dequeues[s.chid]
    }

    constructor (rings: SlotId -> nat, queues: Queues, regs: Regs)
      requires regs.Valid() && queues.Keys == AllSlots()
      ensures Valid() && fresh(enqueues) && fresh(dequeues)
      ensures Slots() == Initial().slots && FreeUnnamed(Slots())
      ensures this.regs == regs && this.queues == queues && available == 0
    {
      enqueues := new Slot[QUEUE_PAIRS](_ => Slot(false, ""));
      dequeues := new Slot[QUEUE_PAIRS](_ => Slot(false, ""));
      this.rings := rings;
      this.queues := queues;
      this.regs := regs;
      available := 0;
    }

    method SetSlot(s: SlotId, v: Slot)
      requires Sized() && s in AllSlots()
      modifies enqueues, dequeues
      ensures Slots() == old(Slots())[s := v]
    {
      if s.bank == Rx {
        enqueues[s.chid] := v;
      } else {
        dequeues[s.chid] := v;
      }
    }

    method TestAndSet(s: SlotId) returns (got: bool)
      requires Sized() && s in AllSlots()
      modifies enqueues, dequeues
      ensures (got, Slots()) == Take(old(Slots()), s)
    {
      var v := if s.bank == Rx then enqueues[s.chid] else dequeues[s.chid];
      if v.used {
        return false;
      }
      SetSlot(s, v.(used := true));
      return true;
    }

    method SetId(s: SlotId, id: string)
      requires Sized() && s in AllSlots()
      modifies enqueues, dequeues
      ensures Slots() == Name(old(Slots()), s, id)
    {
      var v := if s.bank == Rx then enqueues[s.chid] else dequeues[s.chid];
      SetSlot(s, v.(id := id));
    }

    /** Counts the channels available in either direction. */
    method CountAvailableDmaChannel(rxAvail: u32, txAvail: u32)
      requires Valid()
      modifies this`available
      ensures Valid()
      ensures available == |AvailableBelow(rxAvail, txAvail, 32)|
    {
      var regval := Or(rxAvail, txAvail);
      available := 0;
      var i := 0;
      while i < 32
        invariant 0 <= i <= 32 && available <= i
        invariant available == |AvailableBelow(rxAvail, txAvail, i)|
      {
        OrBit(rxAvail, txAvail, i);
        LowBit(regval, i);
        ghost var before := AvailableBelow(rxAvail, txAvail, i);
        assert AvailableBelow(rxAvail, txAvail, i + 1) == if Bit(regval, i) then before + {i} else before;
        available := available + And(Shr(regval, i), 1);
        i := i + 1;
      }
    }

    method LldmaRegWrite(dir: Dir, reg: Reg, v: nat)
      requires Valid()
      modifies this`regs
      ensures Valid() && regs == Write(old(regs), dir, reg, v)
    {
      regs := Write(regs, dir, reg, v);
    }

    method QueueSetAddr(chid: nat, dir: Dir, addr: nat)
      requires Valid() && chid < QUEUE_PAIRS
      modifies this`regs
      ensures Valid() && regs == SetAddr(old(regs), available, chid, dir, rings(SlotId(RegisterBank(dir), chid)), addr)
    {
      if chid >= available {
        return;
      }
      var physAddr: nat;
      match dir {
        case HostToDev => physAddr := rings(SlotId(Rx, chid));
        case DevToHost => physAddr := rings(SlotId(Tx, chid));
        case D2dRx | D2dDRx | D2dTx | D2dDTx =>
          if addr == 0 {
            return;
          }
          physAddr := addr;
        case NwToDev | DevToNw | OtherDir => return;
      }
      LldmaRegWrite(dir, Sel, chid);
      LldmaRegWrite(dir, AddrUp, High(physAddr));
      LldmaRegWrite(dir, AddrDn, Low(physAddr));
    }

    method QueueSetCtrl(chid: nat, dir: Dir, cid: nat)
      requires Valid() && chid < QUEUE_PAIRS && cid < 256
      modifies this`regs
      ensures Valid() && regs == SetCtrl(old(regs), available, chid, dir, cid)
    {
      var qCtrl := 0;
      var ctrl1 := CTRL1_HOST;
      if chid >= available {
        return;
      }
      match dir {
        case HostToDev | DevToHost => qCtrl := QUEUE_SIZE * 256;
        case D2dRx | D2dTx =>
          if cid == 255 {
            return;
          }
          ctrl1 := CTRL1_D2D_H;
          qCtrl := cid * 256;
        case D2dDRx | D2dDTx =>
          if cid == 255 {
            return;
          }
          ctrl1 := CTRL1_D2D_D;
          qCtrl := cid * 256;
        case NwToDev | DevToNw | OtherDir => return;
      }
      LldmaRegWrite(dir, Sel, chid);
      LldmaRegWrite(dir, QCtrl, qCtrl);
      LldmaRegWrite(dir, Ctrl1, ctrl1);
    }

    /** Starts a queue; `data` is what the control register reads back. */
    method StartQueue(chid: nat, dir: Dir, data: u32)
      requires Valid() && chid < QUEUE_PAIRS
      modifies this`regs, this`queues
      ensures Valid() && unchanged(enqueues) && unchanged(dequeues)
      ensures regs == Start(old(regs), available, chid, dir, rings(SlotId(RegisterBank(dir), chid)))
      ensures queues == Rewound(old(queues), available, chid, dir, data)
    {
      if chid >= available || QueueBank(dir).None? {
        return;
      }
      QueueSetAddr(chid, dir, 0);
      QueueSetCtrl(chid, dir, 255);
      LldmaRegWrite(dir, Sel, chid);
      var s := SlotId(RegisterBank(dir), chid);
      queues := queues[s := AtHead(queues[s], data)];
      LldmaRegWrite(dir, Ctrl0, EnableBits(dir));
    }

    method SetBuffer(dir: Dir, size: nat, addr: nat)
      requires Valid()
      modifies this`regs
      ensures Valid() && regs == SetBuf(old(regs), dir, size, addr)
    {
      LldmaRegWrite(dir, BufDn, Low(addr));
      LldmaRegWrite(dir, BufUp, High(addr));
      LldmaRegWrite(dir, BufSize, size);
    }

    /** Stops a channel; `busy(n)` says that CTRL0 is still non-zero at read number `n`.
        The register writes are the same whether or not it drains in time. */
    method StopQueue(chid: nat, dir: Dir, busy: nat -> bool) returns (ret: int)
      requires Valid()
      modifies this`regs
      ensures Valid() && regs == Stop(old(regs), chid, dir)
      ensures ret == if Drains(busy) then 0 else -EFAULT
    {
      LldmaRegWrite(dir, Sel, chid);
      LldmaRegWrite(dir, Ctrl0, 0);
      var cnt := 0;
      while cnt < DRAIN_POLLS
        invariant 0 <= cnt <= DRAIN_POLLS && forall n | 0 <= n < cnt :: busy(n)
        invariant Valid() && regs == Write(Write(old(regs), dir, Sel, chid), dir, Ctrl0, 0)
      {
        if !busy(cnt) {
          break;
        }
        cnt := cnt + 1;
      }
      LldmaRegWrite(dir, Ctrl0, ENABLE_CLEAR);
      if cnt == DRAIN_POLLS {
        return -EFAULT;
      }
      return 0;
    }

    /** Clears the ring of a slot just taken and starts its channel. */
    method PrepareQueue(chid: nat, dir: Dir, data: u32) returns (mapSize: nat)
      requires Valid() && chid < QUEUE_PAIRS && QueueBank(dir).Some?
      modifies this`regs, this`queues
      ensures Valid() && unchanged(enqueues) && unchanged(dequeues)
      ensures var s := SlotId(RegisterBank(dir), chid);
              && regs == Start(old(regs), available, chid, dir, rings(s))
              && queues == Rewound(old(queues)[s := Blank(old(queues)[s])], available, chid, dir, data)
              && mapSize == old(queues)[s].memSize
    {
      var s := SlotId(RegisterBank(dir), chid);
      queues := queues[s := Blank(queues[s])];
      StartQueue(chid, dir, data);
      mapSize := queues[s].memSize;
    }

    method GetQueue(chid: nat, dir: Dir, id: string, data: u32) returns (ret: int, mapSize: nat)
      requires Valid() && chid < QUEUE_PAIRS
      modifies this`regs, this`queues, enqueues, dequeues
      ensures Valid()
      ensures ret == -EINVAL <==> QueueBank(dir).None?
      ensures QueueBank(dir).Some? ==>
                var s := SlotId(QueueBank(dir).value, chid);
                if old(Slots())[s].used then ret == -EBUSY else ret == 0 && Slots() == Acquired(old(Slots()), s, id)
      ensures ret == 0 ==>
                var s := SlotId(RegisterBank(dir), chid);
                && regs == Start(old(regs), available, chid, dir, rings(s))
                && queues == Rewound(old(queues)[s := Blank(old(queues)[s])], available, chid, dir, data)
                && mapSize == old(queues)[s].memSize
      ensures ret != 0 ==> Slots() == old(Slots()) && regs == old(regs) && queues == old(queues)
    {
      var bank := QueueBank(dir);
      if bank.None? {
        return -EINVAL, 0;
      }
      var s := SlotId(bank.value, chid);
      var got := TestAndSet(s);
      if !got {
        return -EBUSY, 0;
      }
      mapSize := PrepareQueue(chid, dir, data);
      SetId(s, id);
      return 0, mapSize;
    }

    method PutQueueInfo(chid: nat, dir: Dir) returns (ret: int)
      requires Sized() && chid < QUEUE_PAIRS
      modifies enqueues, dequeues
      ensures ret == if PutBank(dir).None? then -EINVAL else 0
      ensures Slots() == PutFor(old(Slots()), chid, dir)
      ensures FreeUnnamed(old(Slots())) ==> FreeUnnamed(Slots())
    {
      PutUnnamed(Slots(), chid, dir);
      var bank := PutBank(dir);
      if bank.None? {
        return -EINVAL;
      }
      SetSlot(SlotId(bank.value, chid), Slot(false, ""));
      return 0;
    }

    method PutQueue(chid: nat, dir: Dir, busy: nat -> bool) returns (ret: int)
      requires Valid() && chid < QUEUE_PAIRS
      modifies this`regs, enqueues, dequeues
      ensures Valid() && regs == Stop(old(regs), chid, dir)
      ensures ret == if !Drains(busy) then -EFAULT else if PutBank(dir).None? then -EBUSY else 0
      ensures ret == 0 ==> Slots() == PutFor(old(Slots()), chid, dir)
      ensures ret != 0 ==> Slots() == old(Slots())
    {
      ret := StopQueue(chid, dir, busy);
      if ret < 0 {
        return ret;
      }
      var put := PutQueueInfo(chid, dir);
      if put < 0 {
        return -EBUSY;
      }
      return 0;
    }

    /** Lowest available channel of one direction whose key is `id`. */
    method ScanQueue(id: string, dir: Dir) returns (r: int)
      requires Valid()
      ensures dir !in {HostToDev, DevToHost} ==> r == if available == 0 then -EBUSY else -EINVAL
      ensures dir in {HostToDev, DevToHost} ==>
                var bank := RegisterBank(dir);
                if r < 0 then r == -EBUSY && forall c: nat :: !Carries(Slots(), available, SlotId(bank, c), id)
                else Carries(Slots(), available, SlotId(bank, r), id)
                     && forall c: nat | c < r :: !Carries(Slots(), available, SlotId(bank, c), id)
    {
      var chid := 0;
      while chid < available
        invariant 0 <= chid <= available && (chid > 0 ==> dir in {HostToDev, DevToHost})
        invariant forall c: nat | c < chid :: !Carries(Slots(), available, SlotId(RegisterBank(dir), c), id)
      {
        if dir !in {HostToDev, DevToHost} {
          return -EINVAL;
        }
        var v := if dir == HostToDev then enqueues[chid] else dequeues[chid];
        assert v == Slots()[SlotId(RegisterBank(dir), chid)];
        if v.id == id {
          return chid;
        }
        chid := chid + 1;
      }
      return -EBUSY;
    }

    /** Looks a key up: the lowest available receive channel that carries it, else the lowest
        available transmit channel, else nothing. */
    method RefQueue(id: string) returns (ret: int, dir: Dir, chid: nat, mapSize: nat)
      requires Valid()
      ensures ret == 0 || ret == -EBUSY
      ensures ret == 0 <==> exists s | s in Slots() :: Carries(Slots(), available, s, id)
      ensures ret == 0 ==>
                && dir in {HostToDev, DevToHost}
                && FirstCarrier(Slots(), available, SlotId(RegisterBank(dir), chid), id)
                && mapSize == queues[SlotId(RegisterBank(dir), chid)].memSize
                && (FreeUnnamed(Slots()) && id != "" ==> Slots()[SlotId(RegisterBank(dir), chid)].used)
    {
      dir, chid, mapSize := HostToDev, 0, 0;
      var r := ScanQueue(id, HostToDev);
      if r < 0 {
        ghost var q := Slots();
        assert RegisterBank(HostToDev) == Rx && RegisterBank(DevToHost) == Tx;
        assert forall c: nat :: !Carries(q, available, SlotId(Rx, c), id);
        r := ScanQueue(id, DevToHost);
        assert Slots() == q;
        if r < 0 {
          NoCarrier(Slots(), available, id);
          return r, dir, 0, 0;
        }
        dir := DevToHost;
      }
      assert Carries(Slots(), available, SlotId(RegisterBank(dir), r), id);
      return 0, dir, r, queues[SlotId(RegisterBank(dir), r)].memSize;
    }

    method DevConnect(chid: nat, peer: nat, dir: Dir, peerAddr: nat, bufSize: nat, bufAddr: nat, id: string)
      returns (ret: int)
      requires Valid() && chid < QUEUE_PAIRS
      modifies this`regs, enqueues, dequeues
      ensures Valid()
      ensures ret == -EINVAL <==> ConnectBank(dir).None?
      ensures ConnectBank(dir).Some? ==>
                var s := SlotId(ConnectBank(dir).value, chid);
                if old(Slots())[s].used then ret == -EBUSY else ret == 0 && Slots() == Acquired(old(Slots()), s, id)
      ensures ret == 0 ==> regs == Connect(old(regs), available, chid, peer % 256, dir, peerAddr, bufSize, bufAddr)
      ensures ret != 0 ==> Slots() == old(Slots()) && regs == old(regs)
    {
      var bank := ConnectBank(dir);
      if bank.None? {
        return -EINVAL;
      }
      var s := SlotId(bank.value, chid);
      var cid := peer % 256;
      var got := TestAndSet(s);
      if !got {
        return -EBUSY;
      }
      ProgramConnection(chid, cid, dir, peerAddr, bufSize, bufAddr);
      SetId(s, id);
      return 0;
    }

    /** Peer, buffer and enable registers of a connection. */
    method ProgramConnection(chid: nat, cid: nat, dir: Dir, peerAddr: nat, bufSize: nat, bufAddr: nat)
      requires Valid() && chid < QUEUE_PAIRS && cid < 256 && ConnectBank(dir).Some?
      modifies this`regs
      ensures Valid() && unchanged(enqueues) && unchanged(dequeues)
      ensures regs == Connect(old(regs), available, chid, cid, dir, peerAddr, bufSize, bufAddr)
    {
      QueueSetCtrl(chid, dir, cid);
      QueueSetAddr(chid, dir, peerAddr);
      assert regs == SetAddr(SetCtrl(old(regs), available, chid, dir, cid), available, chid, dir, 0, peerAddr);
      if HostBuffer(dir) {
        SetBuffer(dir, bufSize, bufAddr);
      }
      LldmaRegWrite(dir, Sel, chid);
      LldmaRegWrite(dir, Ctrl0, 3);
    }

    /** Initial values for the registers of the selected channel. */
    method ResetSelected(dir: Dir)
      requires Valid()
      modifies this`regs
      ensures Valid() && unchanged(enqueues) && unchanged(dequeues)
      ensures regs == Initialise(old(regs), dir)
    {
      LldmaRegWrite(dir, QCtrl, Q_CTRL_INIT);
      LldmaRegWrite(dir, Ctrl1, 0);
      LldmaRegWrite(dir, AddrUp, 0);
      LldmaRegWrite(dir, AddrDn, 0);
      if HostBuffer(dir) {
        SetBuffer(dir, 0, 0);
      }
    }

    method SelectAndStop(chid: nat, dir: Dir, busy: nat -> bool) returns (ret: int)
      requires Valid()
      modifies this`regs
      ensures Valid() && unchanged(enqueues) && unchanged(dequeues)
      ensures regs == Stop(Write(old(regs), dir, Sel, chid), chid, dir)
      ensures ret == if Drains(busy) then 0 else -EFAULT
    {
      LldmaRegWrite(dir, Sel, chid);
      ret := StopQueue(chid, dir, busy);
    }

    /** The register part of a disconnection. */
    method StopAndReset(chid: nat, dir: Dir, busy: nat -> bool) returns (ret: int)
      requires Valid()
      modifies this`regs
      ensures Valid() && unchanged(enqueues) && unchanged(dequeues)
      ensures ret == if Drains(busy) then 0 else -EFAULT
      ensures regs == if ret == 0 then Disconnect(old(regs), chid, dir)
                      else Stop(Write(old(regs), dir, Sel, chid), chid, dir)
    {
      ret := SelectAndStop(chid, dir, busy);
      if ret < 0 {
        return ret;
      }
      ResetSelected(dir);
    }

    method DevDisconnect(chid: nat, dir: Dir, busy: nat -> bool) returns (ret: int)
      requires Valid() && chid < QUEUE_PAIRS
      modifies this`regs, enqueues, dequeues
      ensures Valid() && ret == if Drains(busy) then 0 else -EFAULT
      ensures ret == 0 ==>
                && regs == Disconnect(old(regs), chid, dir)
                && Slots() == PutFor(old(Slots()), chid, dir)
      ensures ret != 0 ==> regs == Stop(Write(old(regs), dir, Sel, chid), chid, dir) && Slots() == old(Slots())
      ensures FreeUnnamed(old(Slots())) ==> FreeUnnamed(Slots())
    {
      ret := StopAndReset(chid, dir, busy);
      if ret < 0 {
        return ret;
      }
      var _ := PutQueueInfo(chid, dir);
      return 0;
    }
  }

  /** The channel is seen idle at one of the bounded number of reads. */
  predicate Drains(busy: nat -> bool) {
    exists n | 0 <= n < DRAIN_POLLS :: !busy(n)
  }

  /** The channels numbered below `n` that either mask reports. */
  ghost function AvailableBelow(rxAvail: u32, txAvail: u32, n: nat): set<nat> {
    set k: nat | k < n && (Bit(rxAvail, k) || Bit(txAvail, k))
  }

  /** Slot `s` is among the available channels and carries the key. */
  predicate Carries(q: Slots, available: nat, s: SlotId, id: string) {
    s in q && s.chid < available && q[s].id == id
  }

  lemma NoCarrier(q: Slots, available: nat, id: string)
    requires forall c: nat :: !Carries(q, available, SlotId(Rx, c), id)
    requires forall c: nat :: !Carries(q, available, SlotId(Tx, c), id)
    ensures forall s :: !Carries(q, available, s, id)
  {
    forall s: SlotId
      ensures !Carries(q, available, s, id)
    {
      assert s == if s.bank == Rx then SlotId(Rx, s.chid) else SlotId(Tx, s.chid);
    }
  }

  /** `s` carries the key, and no available channel before it does: receive channels come first,
      lower numbers first. */
  predicate FirstCarrier(q: Slots, available: nat, s: SlotId, id: string) {
    && Carries(q, available, s, id)
    && (forall c: nat | c < s.chid :: !Carries(q, available, SlotId(s.bank, c), id))
    && (s.bank == Tx ==> forall c: nat | c < available :: !Carries(q, available, SlotId(Rx, c), id))
  }

  /** In every state that handles can produce, looking up a non-empty key only ever finds a slot
      that some handle owns. */
  lemma LookupFindsOwned(sys: Sys, available: nat, s: SlotId, id: string)
    requires Inv(sys) && id != "" && Carries(sys.slots, available, s, id)
    ensures sys.slots[s].used && exists h | h in sys.handles :: s in Owns(sys.handles[h])
  {
    assert sys.slots[s].used <==> Owned(sys, s);
  }

  lemma {:induction false} LowBit(v: nat, i: nat)
    ensures And(Shr(v, i), 1) == if Bit(v, i) then 1 else 0
  {
    if i > 0 {
      LowBit(v / 2, i - 1);
    } else {
      assert And(v / 2, 0) == 0;
    }
  }

  /** An acquisition that found its slot free leaves free slots without a key. */
  lemma AcquiredUnnamed(q: Slots, bank: Option<Bank>, chid: nat, id: string)
    requires q.Keys == AllSlots() && chid < QUEUE_PAIRS
    ensures FreeUnnamed(q) && bank.Some? && !q[SlotId(bank.value, chid)].used ==>
              FreeUnnamed(Acquired(q, SlotId(bank.value, chid), id))
  {
    if FreeUnnamed(q) && bank.Some? { FreeStaysUnnamed(q, SlotId(bank.value, chid), id); }
  }

  /** So does a put in any direction. */
  lemma PutUnnamed(q: Slots, chid: nat, dir: Dir)
    requires q.Keys == AllSlots() && chid < QUEUE_PAIRS
    ensures FreeUnnamed(q) ==> FreeUnnamed(PutFor(q, chid, dir))
  {
    if FreeUnnamed(q) && PutBank(dir).Some? { FreeStaysUnnamed(q, SlotId(PutBank(dir).value, chid), ""); }
  }

  /** The structure behind one open file. */

  class FilePrivate {
    var chid: int
    var queKind: Option<Dir>
    var isGetQueue: bool

    constructor ()
      ensures AsHandle() == FRESH
    {
      chid, queKind, isGetQueue := -1, None, false;
    }

    /** The handle between calls, as the ownership model sees it. */
    ghost function AsHandle(): Handle
      reads this
    {
      Handle(chid, queKind, isGetQueue, Idle)
    }

    method Hold(c: nat, dir: Dir)
      modifies this
      ensures AsHandle() == Bind(old(AsHandle()), c, dir)
    {
      chid, queKind, isGetQueue := c, Some(dir), true;
    }

    method Forget()
      modifies this
      ensures AsHandle() == Reset(old(AsHandle()))
    {
      chid, queKind, isGetQueue := -1, None, false;
    }

    method AllocQueue(dev: LldmaDevice, c: nat, dir: Dir, id: string, data: u32) returns (ret: int, mapSize: nat)
      requires dev.Valid() && c < QUEUE_PAIRS
      modifies this, dev`regs, dev`queues, dev.enqueues, dev.dequeues
      ensures dev.Valid()
      ensures FreeUnnamed(old(dev.Slots())) ==> FreeUnnamed(dev.Slots())
      ensures ret == 0 <==> QueueBank(dir).Some? && !old(dev.Slots())[SlotId(QueueBank(dir).value, c)].used
      ensures ret == 0 ==>
                var s := SlotId(QueueBank(dir).value, c);
                && dev.Slots() == Acquired(old(dev.Slots()), s, id)
                && dev.regs == Start(old(dev.regs), dev.available, c, dir, dev.rings(s))
                && dev.queues == Rewound(old(dev.queues)[s := Blank(old(dev.queues)[s])], dev.available, c, dir, data)
                && mapSize == old(dev.queues)[s].memSize
                && AsHandle() == Bind(old(AsHandle()), c, dir)
      ensures ret != 0 ==>
                dev.Slots() == old(dev.Slots()) && dev.regs == old(dev.regs) && dev.queues == old(dev.queues)
                && AsHandle() == old(AsHandle())
    {
      AcquiredUnnamed(dev.Slots(), QueueBank(dir), c, id);
      ret, mapSize := dev.GetQueue(c, dir, id, data);
      if ret < 0 {
        return ret, mapSize;
      }
      Hold(c, dir);
    }

    method BindQueue(dev: LldmaDevice, id: string) returns (ret: int, mapSize: nat)
      requires dev.Valid()
      modifies this
      ensures ret == if exists s | s in dev.Slots() :: Carries(dev.Slots(), dev.available, s, id) then 0 else -EBUSY
      ensures ret == 0 ==>
                && queKind in {Some(HostToDev), Some(DevToHost)} && 0 <= chid < QUEUE_PAIRS
                && AsHandle() == RefTo(old(AsHandle()), chid, queKind.value)
                && var s := SlotId(RegisterBank(queKind.value), chid);
                && FirstCarrier(dev.Slots(), dev.available, s, id) && mapSize == dev.queues[s].memSize
                && (FreeUnnamed(dev.Slots()) && id != "" ==> dev.Slots()[s].used)
      ensures ret != 0 ==> AsHandle() == old(AsHandle())
    {
      var found, dir, c;
      found, dir, c, mapSize := dev.RefQueue(id);
      if found < 0 {
        return -EBUSY, mapSize;
      }
      chid := c;
      queKind := Some(dir);
      var s := SlotId(RegisterBank(dir), c);
      assert s in dev.Slots() && Carries(dev.Slots(), dev.available, s, id);
      return 0, mapSize;
    }

    method FreeQueue(dev: LldmaDevice, c: nat, dir: Dir, busy: nat -> bool) returns (ret: int)
      requires dev.Valid() && c < QUEUE_PAIRS
      modifies this, dev`regs, dev.enqueues, dev.dequeues
      ensures dev.Valid()
      ensures FreeUnnamed(old(dev.Slots())) ==> FreeUnnamed(dev.Slots())
      ensures ret == if old(queKind) == Some(dir) && Drains(busy) && PutBank(dir).Some? then 0 else -EBUSY
      ensures dev.regs == if old(queKind) == Some(dir) then Stop(old(dev.regs), c, dir) else old(dev.regs)
      ensures ret == 0 ==>
                && dev.Slots() == PutFor(old(dev.Slots()), c, dir)
                && AsHandle() == Reset(old(AsHandle()))
      ensures ret != 0 ==> dev.Slots() == old(dev.Slots()) && AsHandle() == old(AsHandle())
    {
      if queKind != Some(dir) {
        return -EBUSY;
      }
      PutUnnamed(dev.Slots(), c, dir);
      ret := dev.PutQueue(c, dir, busy);
      if ret < 0 {
        return -EBUSY;
      }
      Forget();
    }

    /** `garbage` is what the direction variable holds when the user names neither direction. */
    method AllocConnection(dev: LldmaDevice, devId: nat, peerMinor: nat, peerAddr: nat, selfDir: Dir, garbage: Dir,
                           c: nat, peer: nat, bufSize: nat, bufAddr: nat, id: string)
      returns (ret: int)
      requires dev.Valid() && c < QUEUE_PAIRS
      modifies this, dev`regs, dev.enqueues, dev.dequeues
      ensures dev.Valid()
      ensures FreeUnnamed(old(dev.Slots())) ==> FreeUnnamed(dev.Slots())
      ensures var bank := ConnectBank(D2dDir(selfDir, bufAddr, garbage));
              ret == 0 <==>
                devId != peerMinor && peerAddr != 0 && bank.Some? && !old(dev.Slots())[SlotId(bank.value, c)].used
      ensures ret == 0 ==>
                var dir := D2dDir(selfDir, bufAddr, garbage);
                var s := SlotId(ConnectBank(dir).value, c);
                && dev.Slots() == Acquired(old(dev.Slots()), s, id)
                && dev.regs == Connect(old(dev.regs), dev.available, c, peer % 256, dir, peerAddr, bufSize, bufAddr)
                && AsHandle() == Bind(old(AsHandle()), c, dir)
      ensures ret != 0 ==> dev.Slots() == old(dev.Slots()) && dev.regs == old(dev.regs) && AsHandle() == old(AsHandle())
    {
      if devId == peerMinor {
        return -EINVAL;
      }
      if peerAddr == 0 {
        return -EINVAL;
      }
      var dir := D2dDir(selfDir, bufAddr, garbage);
      AcquiredUnnamed(dev.Slots(), ConnectBank(dir), c, id);
      ret := dev.DevConnect(c, peer, dir, peerAddr, bufSize, bufAddr, id);
      if ret != 0 {
        return ret;
      }
      Hold(c, dir);
    }

    method FreeConnection(dev: LldmaDevice, busy: nat -> bool) returns (ret: int)
      requires dev.Valid() && HandleOk(AsHandle())
      modifies this, dev`regs, dev.enqueues, dev.dequeues
      ensures dev.Valid()
      ensures FreeUnnamed(old(dev.Slots())) ==> FreeUnnamed(dev.Slots())
      ensures ret == if !old(isGetQueue) then -EINVAL else if Drains(busy) then 0 else -EFAULT
      ensures ret == -EINVAL ==> dev.regs == old(dev.regs)
      ensures ret == 0 ==>
                && old(isGetQueue) && old(queKind).Some? && 0 <= old(chid) < QUEUE_PAIRS
                && dev.Slots() == PutFor(old(dev.Slots()), old(chid), old(queKind).value)
                && dev.regs == Disconnect(old(dev.regs), old(chid), old(queKind).value)
                && AsHandle() == Reset(old(AsHandle()))
      ensures ret == -EFAULT ==>
                0 <= chid < QUEUE_PAIRS && queKind.Some?
                && dev.regs == Stop(Write(old(dev.regs), queKind.value, Sel, chid), chid, queKind.value)
      ensures ret != 0 ==> dev.Slots() == old(dev.Slots()) && AsHandle() == old(AsHandle())
    {
      if !isGetQueue {
        return -EINVAL;
      }
      ret := dev.DevDisconnect(chid, queKind.value, busy);
      if ret != 0 {
        return ret;
      }
      Forget();
    }

    /** Closing the file: a held slot is given back even when the channel does not drain. */
    method Release(dev: LldmaDevice, busy: nat -> bool)
      requires dev.Valid() && HandleOk(AsHandle())
      modifies dev`regs, dev.enqueues, dev.dequeues
      ensures dev.Valid()
      ensures FreeUnnamed(old(dev.Slots())) ==> FreeUnnamed(dev.Slots())
      ensures dev.Slots() == if isGetQueue then PutFor(old(dev.Slots()), chid, queKind.value) else old(dev.Slots())
      ensures dev.regs == if isGetQueue then Stop(old(dev.regs), chid, queKind.value) else old(dev.regs)
    {
      if isGetQueue {
        var _ := dev.StopQueue(chid, queKind.value, busy);
        var _ := dev.PutQueueInfo(chid, queKind.value);
      }
    }
  }

  /** The driver-internal direction of a connection. */
  function D2dDir(selfDir: Dir, bufAddr: nat, garbage: Dir): Dir {
    match selfDir
    case HostToDev => if bufAddr == 0 then D2dDRx else D2dRx
    case DevToHost => if bufAddr == 0 then D2dDTx else D2dTx
    case _ => garbage
  }
}

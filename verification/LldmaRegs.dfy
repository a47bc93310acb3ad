/** The channel registers of the DMA engine, reached indirectly: each bank has a selector, and
    the other registers of the bank show the selected channel. */
module LldmaRegs {
  import opened Bits
  import opened LldmaSlots

  const QUEUE_SIZE: nat := 255
  const ENABLE_CLEAR: nat := 4
  const CTRL1_HOST: nat := 0
  const CTRL1_D2D_H: nat := 1
  const CTRL1_D2D_D: nat := 2
  const Q_CTRL_INIT: nat := 0x1000

  /** The registers of one channel, as last written. */
  datatype Channel = Channel(ctrl0: nat, ctrl1: nat, qCtrl: nat, addrUp: nat, addrDn: nat,
                             bufUp: nat, bufDn: nat, bufSize: nat)

  datatype BankRegs = BankRegs(sel: nat, ch: seq<Channel>)

  datatype Regs = Regs(rx: BankRegs, tx: BankRegs) {
    predicate Valid() {
      |rx.ch| == QUEUE_PAIRS && |tx.ch| == QUEUE_PAIRS
    }
  }

  datatype Reg = Sel | Ctrl0 | Ctrl1 | QCtrl | AddrUp | AddrDn | BufUp | BufDn | BufSize

  function Get(r: Regs, bank: Bank): BankRegs {
    if bank == Rx then r.rx else r.tx
  }

  function WriteChannel(c: Channel, reg: Reg, v: nat): Channel {
    match reg
    case Sel => c
    case Ctrl0 => c.(ctrl0 := v)
    case Ctrl1 => c.(ctrl1 := v)
    case QCtrl => c.(qCtrl := v)
    case AddrUp => c.(addrUp := v)
    case AddrDn => c.(addrDn := v)
    case BufUp => c.(bufUp := v)
    case BufDn => c.(bufDn := v)
    case BufSize => c.(bufSize := v)
  }

  function WriteBank(b: BankRegs, reg: Reg, v: nat): (b': BankRegs)
    ensures |b'.ch| == |b.ch|
  {
    if reg == Sel then b.(sel := v)
    else if b.sel < |b.ch| then b.(ch := b.ch[b.sel := WriteChannel(b.ch[b.sel], reg, v)])
    else b
  }

  /** `lldma_reg_write` to a register of the bank the direction selects. */
  function Write(r: Regs, dir: Dir, reg: Reg, v: nat): (r': Regs)
    requires r.Valid()
    ensures r'.Valid()
  {
    if RegisterBank(dir) == Rx then r.(rx := WriteBank(r.rx, reg, v)) else r.(tx := WriteBank(r.tx, reg, v))
  }

  function Low(x: nat): nat { x % 0x1_0000_0000 }

  function High(x: nat): nat { (x / 0x1_0000_0000) % 0x1_0000_0000 }

  /** `queue_set_addr`: the ring address for host queues, the peer's address for D2D. */
  function SetAddr(r: Regs, available: nat, chid: nat, dir: Dir, ring: nat, addr: nat): (r': Regs)
    requires r.Valid()
    ensures r'.Valid()
  {
    if chid >= available then r
    else if dir in {HostToDev, DevToHost} then WriteAddr(r, chid, dir, ring)
    else if ConnectBank(dir).Some? && addr != 0 then WriteAddr(r, chid, dir, addr)
    else r
  }

  function WriteAddr(r: Regs, chid: nat, dir: Dir, addr: nat): (r': Regs)
    requires r.Valid()
    ensures r'.Valid()
  {
    Write(Write(Write(r, dir, Sel, chid), dir, AddrUp, High(addr)), dir, AddrDn, Low(addr))
  }

  /** `queue_set_ctrl`: descriptor count for host queues, peer channel for D2D. */
  function SetCtrl(r: Regs, available: nat, chid: nat, dir: Dir, cid: nat): (r': Regs)
    requires r.Valid()
    ensures r'.Valid()
  {
    if chid >= available then r
    else if dir in {HostToDev, DevToHost} then WriteCtrl(r, chid, dir, QUEUE_SIZE * 256, CTRL1_HOST)
    else if dir in {D2dRx, D2dTx} && cid != 255 then WriteCtrl(r, chid, dir, cid * 256, CTRL1_D2D_H)
    else if dir in {D2dDRx, D2dDTx} && cid != 255 then WriteCtrl(r, chid, dir, cid * 256, CTRL1_D2D_D)
    else r
  }

  function WriteCtrl(r: Regs, chid: nat, dir: Dir, qCtrl: nat, ctrl1: nat): (r': Regs)
    requires r.Valid()
    ensures r'.Valid()
  {
    Write(Write(Write(r, dir, Sel, chid), dir, QCtrl, qCtrl), dir, Ctrl1, ctrl1)
  }

  /** `xpcie_fpga_set_buf`: writes to whatever channel is selected. */
  function SetBuf(r: Regs, dir: Dir, size: nat, addr: nat): (r': Regs)
    requires r.Valid()
    ensures r'.Valid()
  {
    Write(Write(Write(r, dir, BufDn, Low(addr)), dir, BufUp, High(addr)), dir, BufSize, size)
  }

  /** Enable bits of a started queue: input and output for host queues, one of them for network
      queues. */
  function EnableBits(dir: Dir): nat {
    match dir
    case HostToDev | DevToHost => 3
    case DevToNw => 1
    case NwToDev => 2
    case _ => 0
  }

  /** `xpcie_fpga_start_queue` */
  function Start(r: Regs, available: nat, chid: nat, dir: Dir, ring: nat): (r': Regs)
    requires r.Valid()
    ensures r'.Valid()
  {
    if chid >= available || QueueBank(dir).None? then r
    else
      var r1 := SetCtrl(SetAddr(r, available, chid, dir, ring, 0), available, chid, dir, 255);
      Write(Write(r1, dir, Sel, chid), dir, Ctrl0, EnableBits(dir))
  }

  /** `xpcie_fpga_stop_queue`: the same writes whether or not the channel drains. */
  function Stop(r: Regs, chid: nat, dir: Dir): (r': Regs)
    requires r.Valid()
    ensures r'.Valid()
  {
    Write(Write(Write(r, dir, Sel, chid), dir, Ctrl0, 0), dir, Ctrl0, ENABLE_CLEAR)
  }

  /** D2D through a host buffer, as opposed to device to device directly. */
  predicate HostBuffer(dir: Dir) {
    dir in {D2dRx, D2dTx}
  }

  /** The register writes of a connection that got its slot. */
  function Connect(r: Regs, available: nat, chid: nat, cid: nat, dir: Dir, peerAddr: nat, bufSize: nat, bufAddr: nat)
    : (r': Regs)
    requires r.Valid()
    ensures r'.Valid()
  {
    var r1 := SetAddr(SetCtrl(r, available, chid, dir, cid), available, chid, dir, 0, peerAddr);
    var r2 := if HostBuffer(dir) then SetBuf(r1, dir, bufSize, bufAddr) else r1;
    Write(Write(r2, dir, Sel, chid), dir, Ctrl0, 3)
  }

  /** Back to the initial values, after a stop that drained. */
  function Initialise(r: Regs, dir: Dir): (r': Regs)
    requires r.Valid()
    ensures r'.Valid()
  {
    var r1 := Write(Write(r, dir, QCtrl, Q_CTRL_INIT), dir, Ctrl1, 0);
    var r2 := Write(Write(r1, dir, AddrUp, 0), dir, AddrDn, 0);
    if HostBuffer(dir) then SetBuf(r2, dir, 0, 0) else r2
  }

  /** The register writes of a disconnection that drained. */
  function Disconnect(r: Regs, chid: nat, dir: Dir): (r': Regs)
    requires r.Valid()
    ensures r'.Valid()
  {
    Initialise(Stop(Write(r, dir, Sel, chid), chid, dir), dir)
  }

  // What the programs do to channels.

  /** Apart from channel `c` of one bank, every channel of both banks is as before. */
  predicate OnlyChannel(r: Regs, r': Regs, bank: Bank, c: nat)
    requires r.Valid() && r'.Valid()
  {
    && (forall i | 0 <= i < QUEUE_PAIRS && i != c :: Get(r', bank).ch[i] == Get(r, bank).ch[i])
    && (bank == Rx ==> r'.tx == r.tx)
    && (bank == Tx ==> r'.rx == r.rx)
  }

  /** The buffer writes of a connection go to the channel being connected exactly when the
      selector was moved to it first, or pointed at it (or at nothing) already. */
  predicate BufferReaches(r: Regs, available: nat, chid: nat, cid: nat, dir: Dir, peerAddr: nat) {
    || !HostBuffer(dir)
    || (chid < available && (cid != 255 || peerAddr != 0))
    || Get(r, RegisterBank(dir)).sel == chid
    || Get(r, RegisterBank(dir)).sel >= QUEUE_PAIRS
  }

  lemma SetCtrlLocal(r: Regs, available: nat, chid: nat, dir: Dir, cid: nat)
    requires r.Valid() && chid < QUEUE_PAIRS && ConnectBank(dir).Some?
    ensures var bank := RegisterBank(dir);
            var r' := SetCtrl(r, available, chid, dir, cid);
            && OnlyChannel(r, r', bank, chid)
            && Get(r', bank).sel == (if chid < available && cid != 255 then chid else Get(r, bank).sel)
            && SameBuffer(Get(r, bank).ch[chid], Get(r', bank).ch[chid])
  {
  }

  lemma SetAddrLocal(r: Regs, available: nat, chid: nat, dir: Dir, addr: nat)
    requires r.Valid() && chid < QUEUE_PAIRS && ConnectBank(dir).Some?
    ensures var bank := RegisterBank(dir);
            var r' := SetAddr(r, available, chid, dir, 0, addr);
            && OnlyChannel(r, r', bank, chid)
            && Get(r', bank).sel == (if chid < available && addr != 0 then chid else Get(r, bank).sel)
            && SameBuffer(Get(r, bank).ch[chid], Get(r', bank).ch[chid])
  {
  }

  predicate SameBuffer(a: Channel, b: Channel) {
    a.bufUp == b.bufUp && a.bufDn == b.bufDn && a.bufSize == b.bufSize
  }

  lemma OnlyChannelTransitive(a: Regs, b: Regs, c: Regs, bank: Bank, k: nat)
    requires a.Valid() && b.Valid() && c.Valid()
    requires OnlyChannel(a, b, bank, k) && OnlyChannel(b, c, bank, k)
    ensures OnlyChannel(a, c, bank, k)
  {
  }

  /** A connection leaves every other channel alone, whatever the buffer, exactly when its
      buffer writes reach its own channel. */
  lemma ConnectLocalIff(r: Regs, available: nat, chid: nat, cid: nat, dir: Dir, peerAddr: nat)
    requires r.Valid() && chid < QUEUE_PAIRS && ConnectBank(dir).Some?
    ensures (forall size: u32, addr: u64 ::
               OnlyChannel(r, Connect(r, available, chid, cid, dir, peerAddr, size, addr), RegisterBank(dir), chid))
            <==> BufferReaches(r, available, chid, cid, dir, peerAddr)
  {
    if BufferReaches(r, available, chid, cid, dir, peerAddr) {
      forall size: u32, addr: u64
        ensures OnlyChannel(r, Connect(r, available, chid, cid, dir, peerAddr, size, addr), RegisterBank(dir), chid)
      {
        ConnectLocal(r, available, chid, cid, dir, peerAddr, size, addr);
      }
    } else {
      var c := Get(r, RegisterBank(dir)).sel;
      var size := if Get(r, RegisterBank(dir)).ch[c].bufSize == 0 then 1 else 0;
      ConnectStray(r, available, chid, cid, dir, peerAddr, size);
    }
  }

  /** With the peer address the connection call insists on, that fails exactly for a host-buffer
      connection on an unavailable channel while another channel is selected. */
  lemma StrayIff(r: Regs, available: nat, chid: nat, cid: nat, dir: Dir, peerAddr: nat)
    requires r.Valid() && chid < QUEUE_PAIRS && ConnectBank(dir).Some? && peerAddr != 0
    ensures !BufferReaches(r, available, chid, cid, dir, peerAddr)
            <==> HostBuffer(dir) && chid >= available && chid != Get(r, RegisterBank(dir)).sel < QUEUE_PAIRS
  {
  }

  /** A concrete stray write: one channel is available and selected, and a connection on
      channel 1 puts its buffer size into channel 0. */
  lemma StrayBuffer(blank: Channel)
    requires blank.bufSize == 0
    ensures var bank := BankRegs(0, seq(QUEUE_PAIRS, _ => blank));
            var r' := Connect(Regs(bank, bank), 1, 1, 5, D2dRx, 0x1000, 64, 0);
            r'.rx.ch[0].bufSize == 64
  {
    var bank := BankRegs(0, seq(QUEUE_PAIRS, _ => blank));
    var r := Regs(bank, bank);
    assert SetAddr(SetCtrl(r, 1, 1, D2dRx, 5), 1, 1, D2dRx, 0, 0x1000) == r;
    var r2 := SetBuf(r, D2dRx, 64, 0);
    assert r2.rx.ch[0].bufSize == 64;
    EnableLocal(r2, D2dRx, 1, 3);
  }

  /** Buffer writes change the buffer registers of the selected channel and nothing else. */
  lemma SetBufLocal(r: Regs, dir: Dir, size: nat, addr: nat, chid: nat)
    requires r.Valid() && chid < QUEUE_PAIRS
    requires Get(r, RegisterBank(dir)).sel == chid || Get(r, RegisterBank(dir)).sel >= QUEUE_PAIRS
    ensures var bank := RegisterBank(dir);
            var r' := SetBuf(r, dir, size, addr);
            && OnlyChannel(r, r', bank, chid) && Get(r', bank).sel == Get(r, bank).sel
            && (Get(r, bank).sel == chid ==>
                  Get(r', bank).ch[chid]
                  == Get(r, bank).ch[chid].(bufUp := High(addr), bufDn := Low(addr), bufSize := size))
  {
  }

  /** Selecting a channel and enabling it changes its control register and nothing else. */
  lemma EnableLocal(r: Regs, dir: Dir, chid: nat, bits: nat)
    requires r.Valid() && chid < QUEUE_PAIRS
    ensures var bank := RegisterBank(dir);
            var r' := Write(Write(r, dir, Sel, chid), dir, Ctrl0, bits);
            && OnlyChannel(r, r', bank, chid)
            && Get(r', bank).ch[chid] == Get(r, bank).ch[chid].(ctrl0 := bits)
  {
  }

  lemma ConnectLocal(r: Regs, available: nat, chid: nat, cid: nat, dir: Dir, peerAddr: nat, size: nat, addr: nat)
    requires r.Valid() && chid < QUEUE_PAIRS && ConnectBank(dir).Some?
    requires BufferReaches(r, available, chid, cid, dir, peerAddr)
    ensures OnlyChannel(r, Connect(r, available, chid, cid, dir, peerAddr, size, addr), RegisterBank(dir), chid)
  {
    var bank := RegisterBank(dir);
    var r1 := SetCtrl(r, available, chid, dir, cid);
    var r2 := SetAddr(r1, available, chid, dir, 0, peerAddr);
    SetCtrlLocal(r, available, chid, dir, cid);
    SetAddrLocal(r1, available, chid, dir, peerAddr);
    OnlyChannelTransitive(r, r1, r2, bank, chid);
    var r3 := if HostBuffer(dir) then SetBuf(r2, dir, size, addr) else r2;
    if HostBuffer(dir) {
      SetBufLocal(r2, dir, size, addr, chid);
      OnlyChannelTransitive(r, r2, r3, bank, chid);
    }
    EnableLocal(r3, dir, chid, 3);
    OnlyChannelTransitive(r, r3, Write(Write(r3, dir, Sel, chid), dir, Ctrl0, 3), bank, chid);
  }

  lemma ConnectStray(r: Regs, available: nat, chid: nat, cid: nat, dir: Dir, peerAddr: nat, size: nat)
    requires r.Valid() && chid < QUEUE_PAIRS && ConnectBank(dir).Some?
    requires !BufferReaches(r, available, chid, cid, dir, peerAddr)
    requires size != Get(r, RegisterBank(dir)).ch[Get(r, RegisterBank(dir)).sel].bufSize
    ensures !OnlyChannel(r, Connect(r, available, chid, cid, dir, peerAddr, size, 0), RegisterBank(dir), chid)
  {
    var bank := RegisterBank(dir);
    var c := Get(r, bank).sel;
    var r2 := SetAddr(SetCtrl(r, available, chid, dir, cid), available, chid, dir, 0, peerAddr);
    assert r2 == r;
    var r3 := SetBuf(r2, dir, size, 0);
    assert Get(r3, bank).ch[c].bufSize == size;
    var r4 := Write(Write(r3, dir, Sel, chid), dir, Ctrl0, 3);
    assert Get(r4, bank).ch[c] == Get(r3, bank).ch[c];
  }

  /** Disconnecting always works on the named channel only, and puts it at the initial values;
      the buffer registers are reset in host-buffer mode and untouched otherwise. */
  lemma DisconnectResets(r: Regs, chid: nat, dir: Dir)
    requires r.Valid() && chid < QUEUE_PAIRS && ConnectBank(dir).Some?
    ensures var bank := RegisterBank(dir);
            var r' := Disconnect(r, chid, dir);
            var was, now := Get(r, bank).ch[chid], Get(r', bank).ch[chid];
            && OnlyChannel(r, r', bank, chid)
            && now.qCtrl == Q_CTRL_INIT && now.ctrl1 == 0 && now.addrUp == 0 && now.addrDn == 0
            && now.ctrl0 == ENABLE_CLEAR
            && if HostBuffer(dir) then now.bufUp == 0 && now.bufDn == 0 && now.bufSize == 0
               else SameBuffer(was, now)
  {
    var bank := RegisterBank(dir);
    var r1 := Stop(Write(r, dir, Sel, chid), chid, dir);
    assert OnlyChannel(r, r1, bank, chid) && Get(r1, bank).sel == chid;
    assert SameBuffer(Get(r, bank).ch[chid], Get(r1, bank).ch[chid]);
    assert Get(r1, bank).ch[chid].ctrl0 == ENABLE_CLEAR;
    InitialiseSelected(r1, chid, dir);
    OnlyChannelTransitive(r, r1, Disconnect(r, chid, dir), bank, chid);
  }

  lemma InitialiseSelected(r: Regs, chid: nat, dir: Dir)
    requires r.Valid() && chid < QUEUE_PAIRS && ConnectBank(dir).Some? && Get(r, RegisterBank(dir)).sel == chid
    ensures var bank := RegisterBank(dir);
            var was, now := Get(r, bank).ch[chid], Get(Initialise(r, dir), bank).ch[chid];
            && OnlyChannel(r, Initialise(r, dir), bank, chid)
            && now == (if HostBuffer(dir) then Channel(was.ctrl0, 0, Q_CTRL_INIT, 0, 0, 0, 0, 0)
                       else Channel(was.ctrl0, 0, Q_CTRL_INIT, 0, 0, was.bufUp, was.bufDn, was.bufSize))
  {
  }

  /** Connect followed by a successful disconnect erases the connection: whatever peer, mode,
      buffer and address were used on an available channel, the channel is at its initial values
      and no other channel of either bank has changed. */
  lemma ConnectionErased(r: Regs, available: nat, chid: nat, cid: nat, dir: Dir, peerAddr: nat,
                         bufSize: nat, bufAddr: nat)
    requires r.Valid() && chid < QUEUE_PAIRS && ConnectBank(dir).Some?
    requires BufferReaches(r, available, chid, cid, dir, peerAddr)
    ensures var bank := RegisterBank(dir);
            var r' := Disconnect(Connect(r, available, chid, cid, dir, peerAddr, bufSize, bufAddr), chid, dir);
            var was, now := Get(r, bank).ch[chid], Get(r', bank).ch[chid];
            && OnlyChannel(r, r', bank, chid)
            && now == (if HostBuffer(dir) then Channel(ENABLE_CLEAR, 0, Q_CTRL_INIT, 0, 0, 0, 0, 0)
                       else Channel(ENABLE_CLEAR, 0, Q_CTRL_INIT, 0, 0, was.bufUp, was.bufDn, was.bufSize))
  {
    var bank := RegisterBank(dir);
    var r1 := Connect(r, available, chid, cid, dir, peerAddr, bufSize, bufAddr);
    ConnectLocal(r, available, chid, cid, dir, peerAddr, bufSize, bufAddr);
    DisconnectResets(r1, chid, dir);
    OnlyChannelTransitive(r, r1, Disconnect(r1, chid, dir), bank, chid);
    if !HostBuffer(dir) {
      SetCtrlLocal(r, available, chid, dir, cid);
      SetAddrLocal(SetCtrl(r, available, chid, dir, cid), available, chid, dir, peerAddr);
    }
  }

  /** Both programs select an available channel and write the peer record into it. */
  lemma PeerProgrammed(r: Regs, available: nat, chid: nat, dir: Dir, cid: nat, addr: nat)
    requires r.Valid() && chid < available <= QUEUE_PAIRS && ConnectBank(dir).Some? && cid != 255 && addr > 0
    ensures var bank := RegisterBank(dir);
            var r2 := SetAddr(SetCtrl(r, available, chid, dir, cid), available, chid, dir, 0, addr);
            && Get(r2, bank).sel == chid
            && Get(r2, bank).ch[chid]
               == Get(r, bank).ch[chid].(qCtrl := cid * 256,
                                         ctrl1 := if HostBuffer(dir) then CTRL1_D2D_H else CTRL1_D2D_D,
                                         addrUp := High(addr), addrDn := Low(addr))
  {
  }

  lemma Halves(x: nat)
    requires x < 0x1_0000_0000_0000_0000
    ensures High(x) * 0x1_0000_0000 + Low(x) == x
  {
  }

  /** A connection on an available channel with a real peer id programs the whole peer record. */
  lemma ConnectProgrammed(r: Regs, available: nat, chid: nat, cid: nat, dir: Dir, peerAddr: nat,
                          bufSize: nat, bufAddr: nat)
    requires r.Valid() && chid < available <= QUEUE_PAIRS && ConnectBank(dir).Some?
    requires cid != 255 && 0 < peerAddr < 0x1_0000_0000_0000_0000 && bufAddr < 0x1_0000_0000_0000_0000
    ensures var c := Get(Connect(r, available, chid, cid, dir, peerAddr, bufSize, bufAddr), RegisterBank(dir)).ch[chid];
            && c.ctrl0 == 3 && c.qCtrl == (cid) * 256
            && c.ctrl1 == (if HostBuffer(dir) then CTRL1_D2D_H else CTRL1_D2D_D)
            && c.addrUp * 0x1_0000_0000 + c.addrDn == peerAddr
            && (HostBuffer(dir) ==> c.bufUp * 0x1_0000_0000 + c.bufDn == bufAddr && c.bufSize == bufSize)
  {
    var r2 := SetAddr(SetCtrl(r, available, chid, dir, cid), available, chid, dir, 0, peerAddr);
    PeerProgrammed(r, available, chid, dir, cid, peerAddr);
    SetBufLocal(r2, dir, bufSize, bufAddr, chid);
    EnableLocal(if HostBuffer(dir) then SetBuf(r2, dir, bufSize, bufAddr) else r2, dir, chid, 3);
    Halves(peerAddr);
    Halves(bufAddr);
  }

  /** Starting a host queue programs its own channel completely, buffer registers aside, so
      nothing of an earlier connection on that channel survives; no other channel changes. */
  lemma StartProgrammed(r: Regs, available: nat, chid: nat, dir: Dir, ring: nat)
    requires r.Valid() && chid < available <= QUEUE_PAIRS && dir in {HostToDev, DevToHost}
    ensures var bank := RegisterBank(dir);
            var r' := Start(r, available, chid, dir, ring);
            var was := Get(r, bank).ch[chid];
            && OnlyChannel(r, r', bank, chid)
            && Get(r', bank).ch[chid]
               == Channel(3, CTRL1_HOST, QUEUE_SIZE * 256, High(ring), Low(ring), was.bufUp, was.bufDn, was.bufSize)
  {
    var bank := RegisterBank(dir);
    var r1 := SetAddr(r, available, chid, dir, ring, 0);
    assert OnlyChannel(r, r1, bank, chid);
    assert Get(r1, bank).ch[chid] == Get(r, bank).ch[chid].(addrUp := High(ring), addrDn := Low(ring));
    var r2 := SetCtrl(r1, available, chid, dir, 255);
    assert OnlyChannel(r1, r2, bank, chid);
    assert Get(r2, bank).ch[chid] == Get(r1, bank).ch[chid].(qCtrl := QUEUE_SIZE * 256, ctrl1 := CTRL1_HOST);
    EnableLocal(r2, dir, chid, 3);
    OnlyChannelTransitive(r, r1, r2, bank, chid);
    OnlyChannelTransitive(r, r2, Start(r, available, chid, dir, ring), bank, chid);
  }

  /** Starting a network queue only enables its own channel, in one direction. */
  lemma StartNetwork(r: Regs, available: nat, chid: nat, dir: Dir, ring: nat)
    requires r.Valid() && chid < available <= QUEUE_PAIRS && dir in {NwToDev, DevToNw}
    ensures var bank := RegisterBank(dir);
            var r' := Start(r, available, chid, dir, ring);
            && OnlyChannel(r, r', bank, chid)
            && Get(r', bank).ch[chid] == Get(r, bank).ch[chid].(ctrl0 := if dir == NwToDev then 2 else 1)
  {
    assert SetCtrl(SetAddr(r, available, chid, dir, ring, 0), available, chid, dir, 255) == r;
    EnableLocal(r, dir, chid, EnableBits(dir));
  }
}

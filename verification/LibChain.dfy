/** The library's chain functions: sequences of driver calls with early returns and rollback. */
module LibChain {
  import opened Bits
  import opened ChainWords
  import opened ChainDriver
  import opened ChainRuns
  import opened ChainTable
  import opened Common

  datatype Result = Ok | InvalidArgument | TableUpdateTimeout | FuncChainIdMismatch | FailureIoctl

  /** What an ioctl that failed with `errno` is reported as. */
  function UpdateError(ret: int): (r: Result)
    ensures r == Ok <==> ret == 0
  {
    if ret == 0 then Ok else if ret == -UPDATE_TIMEOUT then TableUpdateTimeout else FailureIoctl
  }

  function DeleteError(ret: int): (r: Result)
    ensures r == Ok <==> ret == 0
  {
    if ret == 0 then Ok
    else if ret == -UPDATE_TIMEOUT then TableUpdateTimeout
    else if ret == -NO_CHAIN_FOUND then FuncChainIdMismatch
    else FailureIoctl
  }

  predicate ValidKey(lanes: nat, lane: u32, fchid: u32) {
    lane < lanes && fchid <= FCHID_MAX
  }

  datatype Flags = Flags(active: u8, direct: u8, virt: u8, blocking: u8)

  predicate ValidConnect(lanes: nat, lane: u32, fchid: u32, extif: u32, cid: u32, flags: Flags) {
    && ValidKey(lanes, lane, fchid) && extif <= 1 && cid <= CID_MAX
    && flags.active <= 1 && flags.direct <= 1 && flags.virt <= 1 && flags.blocking <= 1
  }

  /** The words a connect puts into hardware. */
  function ConnectId(lane: nat, fchid: nat, extif: nat, cid: nat, flags: Flags): Id {
    Id(lane, extif, cid, fchid, 1, flags.active, flags.direct, flags.virt, flags.blocking)
  }

  /** A disconnect names a lane and an fchid only. */
  function DisconnectId(lane: nat, fchid: nat): Id {
    Id(lane, 0, 0, fchid, 0, 0, 0, 0, 0)
  }

  /** The driver's answer to an update. */
  function UpdateAnswer(id: Id, r: Result): Answer {
    Answer(if r == Ok then 0 else -UPDATE_TIMEOUT, id)
  }

  /** The driver's answer to the delete of the entry `e`. */
  function DeleteAnswer(id: Id, e: Entry, r: Result): Answer {
    if r == Ok && e.extif >= 0 && e.cid >= 0 then Answer(0, id.(extif := e.extif, cid := e.cid))
    else Answer(if r == FuncChainIdMismatch then -NO_CHAIN_FOUND else -UPDATE_TIMEOUT, id)
  }

  /** How far a failed connect got. */
  datatype Rollback = NotNeeded | Undone | Stuck

  /** The last step of `h`. */
  predicate Did(h: History, call: Call, a: Answer) {
    h.Then? && h.call == call && h.answer == a
  }

  /** Second half of a connect, from `h0` to `h`: the egress update, which bad arguments prevent;
      unless that succeeded, some time and the undoing delete of the ingress entry `made`. */
  predicate EgressSteps(h0: History, h: History, outId: Id, undoId: Id, made: Entry, r: Result, rollback: Rollback) {
    if r == Ok then Did(h, Update(Egress, outId), UpdateAnswer(outId, r)) && h.before == h0
    else
      && Did(h, Delete(Ingress, undoId),
             DeleteAnswer(undoId, made, if rollback == Undone then Ok else TableUpdateTimeout))
      && Did(h.before, Tick, NOTHING)
      && if r == InvalidArgument then h.before.before == h0
         else Did(h.before.before, Update(Egress, outId), UpdateAnswer(outId, r)) && h.before.before.before == h0
  }

  /** A whole connect: nothing on bad arguments; the ingress update; unless that timed out, some
      time and the second half. */
  predicate ConnectSteps(h0: History, mid: History, h: History, inId: Id, outId: Id, r: Result, rollback: Rollback) {
    if r == InvalidArgument && rollback == NotNeeded then h == h0
    else if r == TableUpdateTimeout && rollback == NotNeeded
    then Did(h, Update(Ingress, inId), UpdateAnswer(inId, r)) && h.before == h0
    else
      && Did(mid, Tick, NOTHING)
      && Did(mid.before, Update(Ingress, inId), UpdateAnswer(inId, Ok)) && mid.before.before == h0
      && EgressSteps(mid, h, outId, DisconnectId(inId.lane, inId.fchid), Entry(inId.extif, inId.cid), r, rollback)
  }

  /** A disconnect: the ingress delete, answered `first`; when that succeeded, some time and the
      egress delete. `inEntry` and `outEntry` are the entries recorded before. */
  predicate DisconnectSteps(h0: History, h: History, id: Id, inEntry: Entry, outEntry: Entry,
                            first: Result, r: Result) {
    if first != Ok then r == first && Did(h, Delete(Ingress, id), DeleteAnswer(id, inEntry, r)) && h.before == h0
    else
      && Did(h, Delete(Egress, id), DeleteAnswer(id, outEntry, r)) && Did(h.before, Tick, NOTHING)
      && Did(h.before.before, Delete(Ingress, id), DeleteAnswer(id, inEntry, Ok)) && h.before.before.before == h0
  }

  /** The answer of the ingress half. */
  function FirstAnswer(inEntry: Entry, inDone: bool): Result {
    if inEntry == EMPTY then FuncChainIdMismatch else if inDone then Ok else TableUpdateTimeout
  }

  /** A handle to a device, with the number of chain lanes it was found to have. */
  class ChainLibrary {
    const dev: ChainDevice
    const found: bool   // whether the device id names an open device
    const lanes: nat

    ghost predicate Valid()
      reads dev, dev.soft, dev.engines
    {
      dev.Valid() && lanes <= LANE_MAX
    }

    constructor (dev: ChainDevice, found: bool, lanes: nat)
      ensures this.dev == dev && this.found == found && this.lanes == lanes
    {
      this.dev := dev;
      this.found := found;
      this.lanes := lanes;
    }

    /** `__fpga_chain_connect`: check, then one table update. */
    method ConnectOne(lane: u32, fchid: u32, extif: u32, cid: u32, kind: Kind, flags: Flags, done: nat -> bool)
      returns (r: Result)
      requires Valid()
      modifies dev, dev.soft, dev.engines
      ensures Valid()
      ensures r == InvalidArgument <==> !found || !ValidConnect(lanes, lane, fchid, extif, cid, flags)
      ensures dev.Table()
              == if r == Ok then SetEntry(old(dev.Table()), Port(lane, kind), fchid, Entry(extif, cid))
                 else old(dev.Table())
      ensures r != InvalidArgument ==> r == if Answers(done) then Ok else TableUpdateTimeout
      // Whatever the answer, the driver made exactly this update.
      ensures r != InvalidArgument ==>
                var id := ConnectId(lane, fchid, extif, cid, flags);
                Did(dev.history, Update(kind, id), UpdateAnswer(id, r)) && dev.history.before == old(dev.history)
      ensures r == InvalidArgument ==> unchanged(dev) && unchanged(dev.soft) && unchanged(dev.engines)
    {
      if !found || !ValidConnect(lanes, lane, fchid, extif, cid, flags) {
        return InvalidArgument;
      }
      var id := ConnectId(lane, fchid, extif, cid, flags);
      ghost var was, c := dev.Table(), dev.Cols();
      var ret := dev.UpdateFuncChainTable(id, kind, done);
      ConnectTable(c, dev.Cols(), was, dev.Table(), kind, id, ret);
      return UpdateError(ret);
    }

    /** `__fpga_chain_disconnect`: check, then one table delete. */
    method DisconnectOne(lane: u32, fchid: u32, kind: Kind, done: nat -> bool) returns (r: Result)
      requires Valid()
      modifies dev, dev.soft, dev.engines
      ensures Valid()
      ensures r == InvalidArgument <==> !found || !ValidKey(lanes, lane, fchid)
      ensures r != InvalidArgument ==>
                (r == FuncChainIdMismatch <==> EntryAt(old(dev.Table()), Port(lane, kind), fchid) == EMPTY)
      ensures r in {InvalidArgument, FuncChainIdMismatch} ==> unchanged(dev.soft) && unchanged(dev.engines)
      ensures dev.Table()
              == if r == Ok then SetEntry(old(dev.Table()), Port(lane, kind), fchid, EMPTY)
                 else old(dev.Table())
      ensures r in {InvalidArgument, FuncChainIdMismatch} || r == if Answers(done) then Ok else TableUpdateTimeout
      ensures r != InvalidArgument ==>
                var id := DisconnectId(lane, fchid);
                && Did(dev.history, Delete(kind, id),
                       DeleteAnswer(id, EntryAt(old(dev.Table()), Port(lane, kind), fchid), r))
                && dev.history.before == old(dev.history)
    {
      if !found || !ValidKey(lanes, lane, fchid) {
        return InvalidArgument;
      }
      var id := DisconnectId(lane, fchid);
      ghost var was, c := dev.Table(), dev.Cols();
      var ret, out := dev.DeleteFuncChainTable(id, kind, done);
      DisconnectTable(c, dev.Cols(), was, dev.Table(), kind, id, ret, out);
      return DeleteError(ret);
    }

    /** Connect: ingress, then egress, then undo ingress if egress failed. The three functions say
        when hardware answers the two updates and the undoing delete. */
    method FpgaChainConnect(lane: u32, fchid: u32, inExtif: u32, inCid: u32, outExtif: u32, outCid: u32,
                            inActive: u8, outActive: u8, direct: u8, virt: u8, blocking: u8,
                            doneIn: nat -> bool, doneOut: nat -> bool, doneUndo: nat -> bool)
      returns (r: Result, ghost rollback: Rollback, ghost mid: History)
      requires Valid()
      modifies dev, dev.soft, dev.engines
      ensures Valid()
      ensures var inOk := found && outCid <= CID_MAX
                          && ValidConnect(lanes, lane, fchid, inExtif, inCid, Flags(inActive, direct, 0, 0));
              var outOk := ValidConnect(lanes, lane, fchid, outExtif, outCid, Flags(outActive, 0, virt, blocking));
              && r == (if !inOk then InvalidArgument else if !Answers(doneIn) then TableUpdateTimeout
                       else if !outOk then InvalidArgument else if !Answers(doneOut) then TableUpdateTimeout else Ok)
              && rollback == (if r == Ok || !inOk || !Answers(doneIn) then NotNeeded
                              else if Answers(doneUndo) then Undone else Stuck)
      // Success: both entries as requested, everything else as before. Failure: at most the
      // ingress entry of the fchid differs from before. It is empty when the rollback went
      // through, and names the new session when the rollback timed out.
      ensures dev.Table()
              == match rollback
                 case NotNeeded =>
                   if r == Ok
                   then SetEntry(SetEntry(old(dev.Table()), Port(lane, Ingress), fchid, Entry(inExtif, inCid)),
                                 Port(lane, Egress), fchid, Entry(outExtif, outCid))
                   else old(dev.Table())
                 case Undone => SetEntry(old(dev.Table()), Port(lane, Ingress), fchid, EMPTY)
                 case Stuck => SetEntry(old(dev.Table()), Port(lane, Ingress), fchid, Entry(inExtif, inCid))
      // The device's history has grown by exactly the steps of a connect.
      ensures ConnectSteps(old(dev.history), mid, dev.history,
                           ConnectId(lane, fchid, inExtif, inCid, Flags(inActive, direct, 0, 0)),
                           ConnectId(lane, fchid, outExtif, outCid, Flags(outActive, 0, virt, blocking)), r, rollback)
      // A rolled-back connect leaves no trace exactly when the fchid had no ingress entry.
      ensures rollback == Undone ==>
                ValidKey(lanes, lane, fchid) &&
                (dev.Table() == old(dev.Table())
                 <==> EntryAt(old(dev.Table()), Port(lane, Ingress), fchid) == EMPTY)
    {
      ghost var was := dev.Table();
      mid := dev.history;
      if !found || inCid > CID_MAX || outCid > CID_MAX {
        return InvalidArgument, NotNeeded, mid;
      }
      r := ConnectOne(lane, fchid, inExtif, inCid, Ingress, Flags(inActive, direct, 0, 0), doneIn);
      if r != Ok {
        return r, NotNeeded, mid;
      }
      dev.Elapse();
      mid := dev.history;
      assert dev.Table() == SetEntry(was, Port(lane, Ingress), fchid, Entry(inExtif, inCid));
      r, rollback := EgressOrUndo(lane, fchid, inExtif, inCid, outExtif, outCid, Flags(outActive, 0, virt, blocking),
                                  doneOut, doneUndo);
      if rollback == Undone {
        SetTwice(was, Port(lane, Ingress), fchid, Entry(inExtif, inCid), EMPTY);
        SetSame(was, Port(lane, Ingress), fchid, EMPTY);
      }
    }

    /** The second half of a connect, with the ingress entry already in place. */
    method EgressOrUndo(lane: u32, fchid: u32, inExtif: u32, inCid: u32, outExtif: u32, outCid: u32, flags: Flags,
                        doneOut: nat -> bool, doneUndo: nat -> bool)
      returns (r: Result, ghost rollback: Rollback)
      requires Valid() && found && ValidKey(lanes, lane, fchid)
      requires EntryAt(dev.Table(), Port(lane, Ingress), fchid) == Entry(inExtif, inCid)
      modifies dev, dev.soft, dev.engines
      ensures Valid()
      ensures r == if !ValidConnect(lanes, lane, fchid, outExtif, outCid, flags) then InvalidArgument
                   else if Answers(doneOut) then Ok else TableUpdateTimeout
      ensures rollback == if r == Ok then NotNeeded else if Answers(doneUndo) then Undone else Stuck
      ensures dev.Table()
              == match rollback
                 case NotNeeded => SetEntry(old(dev.Table()), Port(lane, Egress), fchid, Entry(outExtif, outCid))
                 case Undone => SetEntry(old(dev.Table()), Port(lane, Ingress), fchid, EMPTY)
                 case Stuck => old(dev.Table())
      ensures EgressSteps(old(dev.history), dev.history, ConnectId(lane, fchid, outExtif, outCid, flags),
                          DisconnectId(lane, fchid), Entry(inExtif, inCid), r, rollback)
    {
      r := ConnectOne(lane, fchid, outExtif, outCid, Egress, flags, doneOut);
      if r == Ok {
        return Ok, NotNeeded;
      }
      dev.Elapse();
      assert dev.Table() == old(dev.Table());
      var undo := DisconnectOne(lane, fchid, Ingress, doneUndo);
      rollback := if undo == Ok then Undone else Stuck;
    }

    /** Disconnect: ingress first, egress only if that succeeded. */
    method FpgaChainDisconnect(lane: u32, fchid: u32, doneIn: nat -> bool, doneOut: nat -> bool) returns (r: Result)
      requires Valid()
      modifies dev, dev.soft, dev.engines
      ensures Valid()
      ensures r == InvalidArgument <==> !found || !ValidKey(lanes, lane, fchid)
      ensures r != InvalidArgument ==>
                DisconnectOutcome(old(dev.Table()), dev.Table(), lane, fchid, Answers(doneIn), Answers(doneOut), r)
      // The device's history has grown by exactly the steps of a disconnect.
      ensures r != InvalidArgument ==>
                var inEntry := EntryAt(old(dev.Table()), Port(lane, Ingress), fchid);
                DisconnectSteps(old(dev.history), dev.history, DisconnectId(lane, fchid), inEntry,
                                EntryAt(old(dev.Table()), Port(lane, Egress), fchid),
                                FirstAnswer(inEntry, Answers(doneIn)), r)
      // With no ingress entry, as after any disconnect that got past its first half, it
      // answers "no chain" and touches neither soft table nor registers, even if an egress
      // entry is left behind.
      ensures r != InvalidArgument && EntryAt(old(dev.Table()), Port(lane, Ingress), fchid) == EMPTY ==>
                r == FuncChainIdMismatch && unchanged(dev.soft) && unchanged(dev.engines)
    {
      if !found {
        return InvalidArgument;
      }
      ghost var was := dev.Table();
      r := DisconnectOne(lane, fchid, Ingress, doneIn);
      if r != Ok {
        return r;
      }
      ghost var mid := dev.Table();
      r := DisconnectEgress(lane, fchid, doneOut);
      BothHalves(was, mid, dev.Table(), lane, fchid, Answers(doneOut), r);
    }

    /** The second half of a disconnect. */
    method DisconnectEgress(lane: u32, fchid: u32, done: nat -> bool) returns (r: Result)
      requires Valid() && found && ValidKey(lanes, lane, fchid)
      modifies dev, dev.soft, dev.engines
      ensures Valid()
      ensures r == if EntryAt(old(dev.Table()), Port(lane, Egress), fchid) == EMPTY then FuncChainIdMismatch
                   else if Answers(done) then Ok else TableUpdateTimeout
      ensures dev.Table()
              == if r == Ok then SetEntry(old(dev.Table()), Port(lane, Egress), fchid, EMPTY) else old(dev.Table())
      ensures var id, outEntry := DisconnectId(lane, fchid), EntryAt(old(dev.Table()), Port(lane, Egress), fchid);
              && Did(dev.history, Delete(Egress, id), DeleteAnswer(id, outEntry, r))
              && Did(dev.history.before, Tick, NOTHING) && dev.history.before.before == old(dev.history)
    {
      dev.Elapse();
      r := DisconnectOne(lane, fchid, Egress, done);
    }

    /** The polling callback behind the four wait functions. */
    method WaitConnectionClb(lane: u32, fchid: u32, isIngress: bool, isEstablished: bool)
      returns (r: Result, again: int)
      requires Valid()
      ensures r == InvalidArgument <==> !found || !ValidKey(lanes, lane, fchid)
      ensures r in {Ok, InvalidArgument}
      // Zero exactly when the entry's presence is what is waited for: waiting for connection
      // and waiting for disconnection give opposite answers.
      ensures r == Ok ==>
                var e := EntryAt(dev.Table(), Port(lane, if isIngress then Ingress else Egress), fchid);
                again == if (e != EMPTY) == isEstablished then 0 else 1
    {
      if !found || !ValidKey(lanes, lane, fchid) {
        return InvalidArgument, -1;
      }
      var ingress, egress := dev.ReadChainSoftTable(lane, fchid);
      var e := if isIngress then ingress else egress;
      WaitTestsComplement(e);
      if isEstablished {
        return Ok, if Established(e) then 0 else 1;
      } else {
        return Ok, if Disconnected(e) then 0 else 1;
      }
    }
  }

  /** The entry of fchid `f`, empty where there is none. */
  function EntryAt(t: map<Port, seq<Entry>>, p: Port, f: nat): Entry {
    if p in t && f < |t[p]| then t[p][f] else EMPTY
  }

  function SetEntry(t: map<Port, seq<Entry>>, p: Port, f: nat, e: Entry): (r: map<Port, seq<Entry>>)
  {
    if p in t && f < |t[p]| then t[p := t[p][f := e]] else t
  }

  /** A call that leaves the other columns quiet changes the table at its own port only. */
  lemma TableAfter(c: Columns, c': Columns, t: map<Port, seq<Entry>>, t': map<Port, seq<Entry>>, p: Port)
    requires c.Keys == t.Keys == c'.Keys == t'.Keys && p in c && OthersQuiet(c, c', p)
    requires forall q: Port | q in c :: c[q].soft == t[q] && c'[q].soft == t'[q]
    ensures t' == t[p := c'[p].soft]
  {
    assert forall q: Port | q in c && q != p :: Quiet(q.kind, c[q], c'[q]);
  }

  lemma ConnectTable(c: Columns, c': Columns, t: map<Port, seq<Entry>>, t': map<Port, seq<Entry>>,
                     kind: Kind, id: Id, ret: int)
    requires id.InTable() && id.ValidSession() && Sized(c) && c.Keys == t.Keys == c'.Keys == t'.Keys
    requires forall q: Port | q in c :: c[q].soft == t[q] && c'[q].soft == t'[q]
    requires OthersQuiet(c, c', Port(id.lane, kind))
    requires UpdateStep(kind, c[Port(id.lane, kind)], c'[Port(id.lane, kind)], id, ret)
    ensures t' == if ret == 0 then SetEntry(t, Port(id.lane, kind), id.fchid, Entry(id.extif, id.cid)) else t
    ensures ret == 0 || ret == -UPDATE_TIMEOUT
  {
    var p := Port(id.lane, kind);
    TableAfter(c, c', t, t', p);
    assert ret != 0 ==> t[p := t[p]] == t;
  }

  lemma DisconnectTable(c: Columns, c': Columns, t: map<Port, seq<Entry>>, t': map<Port, seq<Entry>>,
                        kind: Kind, id: Id, ret: int, out: Id)
    requires id.InTable() && Sized(c) && c.Keys == t.Keys == c'.Keys == t'.Keys
    requires forall q: Port | q in c :: c[q].soft == t[q] && c'[q].soft == t'[q]
    requires OthersQuiet(c, c', Port(id.lane, kind))
    requires DeleteStep(kind, c[Port(id.lane, kind)], c'[Port(id.lane, kind)], id, ret, out)
    ensures t' == if ret == 0 then SetEntry(t, Port(id.lane, kind), id.fchid, EMPTY) else t
    ensures ret in {0, -UPDATE_TIMEOUT, -NO_CHAIN_FOUND}
    ensures ret == -NO_CHAIN_FOUND <==> EntryAt(t, Port(id.lane, kind), id.fchid) == EMPTY
    ensures Answer(ret, out) == DeleteAnswer(id, EntryAt(t, Port(id.lane, kind), id.fchid), DeleteError(ret))
  {
    var p := Port(id.lane, kind);
    TableAfter(c, c', t, t', p);
    assert ret != 0 ==> t[p := t[p]] == t;
  }

  /** What a disconnect answers and leaves in the table, by what was there and what the hardware
      answered in time. */
  predicate DisconnectOutcome(was: map<Port, seq<Entry>>, now: map<Port, seq<Entry>>, lane: nat, f: nat,
                              inDone: bool, outDone: bool, r: Result)
  {
    var mid := SetEntry(was, Port(lane, Ingress), f, EMPTY);
    if EntryAt(was, Port(lane, Ingress), f) == EMPTY then r == FuncChainIdMismatch && now == was
    else if !inDone then r == TableUpdateTimeout && now == was
    else if EntryAt(was, Port(lane, Egress), f) == EMPTY then r == FuncChainIdMismatch && now == mid
    else if !outDone then r == TableUpdateTimeout && now == mid
    else r == Ok && now == SetEntry(mid, Port(lane, Egress), f, EMPTY)
  }

  lemma BothHalves(was: map<Port, seq<Entry>>, mid: map<Port, seq<Entry>>, now: map<Port, seq<Entry>>,
                   lane: nat, f: nat, outDone: bool, r: Result)
    requires was.Keys == Ports() && lane < LANE_MAX && f < |was[Port(lane, Ingress)]| && f < |was[Port(lane, Egress)]|
    requires EntryAt(was, Port(lane, Ingress), f) != EMPTY && mid == SetEntry(was, Port(lane, Ingress), f, EMPTY)
    requires r == if EntryAt(mid, Port(lane, Egress), f) == EMPTY then FuncChainIdMismatch
                  else if outDone then Ok else TableUpdateTimeout
    requires now == if r == Ok then SetEntry(mid, Port(lane, Egress), f, EMPTY) else mid
    ensures DisconnectOutcome(was, now, lane, f, true, outDone, r)
  {
  }

  /** In every case a disconnect succeeds exactly when it removed the egress entry; then both
      entries are gone. It never touches another entry. */
  lemma DisconnectIff(was: map<Port, seq<Entry>>, now: map<Port, seq<Entry>>, lane: nat, f: nat,
                      inDone: bool, outDone: bool, r: Result, p: Port, g: nat)
    requires was.Keys == Ports() && lane < LANE_MAX && f < |was[Port(lane, Ingress)]| && f < |was[Port(lane, Egress)]|
    requires DisconnectOutcome(was, now, lane, f, inDone, outDone, r)
    requires p in was && g < |was[p]|
    ensures now.Keys == was.Keys && forall q: Port | q in was :: |now[q]| == |was[q]|
    ensures r == Ok <==> EntryAt(was, Port(lane, Egress), f) != EMPTY && EntryAt(now, Port(lane, Egress), f) == EMPTY
    ensures r == Ok ==> EntryAt(now, Port(lane, Ingress), f) == EMPTY
    ensures g != f || p.lane != lane ==> now[p][g] == was[p][g]
  {
    Halves(was, lane, f);
  }

  /** Emptying an fchid in one direction and then in the other. */
  lemma Halves(t: map<Port, seq<Entry>>, lane: nat, f: nat)
    requires t.Keys == Ports() && lane < LANE_MAX && f < |t[Port(lane, Ingress)]| && f < |t[Port(lane, Egress)]|
    ensures var mid := SetEntry(t, Port(lane, Ingress), f, EMPTY);
            var end := SetEntry(mid, Port(lane, Egress), f, EMPTY);
            && EntryAt(mid, Port(lane, Ingress), f) == EMPTY && mid[Port(lane, Egress)] == t[Port(lane, Egress)]
            && end[Port(lane, Ingress)][f] == EMPTY && end[Port(lane, Egress)][f] == EMPTY
  {
  }

  lemma Emptied(t: map<Port, seq<Entry>>, p: Port, f: nat)
    ensures EntryAt(SetEntry(t, p, f, EMPTY), p, f) == EMPTY
  {
  }

  lemma SetTwice(t: map<Port, seq<Entry>>, p: Port, f: nat, e: Entry, e': Entry)
    ensures SetEntry(SetEntry(t, p, f, e), p, f, e') == SetEntry(t, p, f, e')
  {
    if p in t && f < |t[p]| { assert t[p][f := e][f := e'] == t[p][f := e']; }
  }

  lemma SetSame(t: map<Port, seq<Entry>>, p: Port, f: nat, e: Entry)
    requires p in t && f < |t[p]|
    ensures SetEntry(t, p, f, e) == t <==> t[p][f] == e
  {
    assert SetEntry(t, p, f, e)[p][f] == e;
    if t[p][f] == e { assert t[p][f := e] == t[p]; }
  }

  // A connect and the agreement of soft and hardware tables.

  /** The connect got past its first argument check, so the ingress update was made. */
  predicate Sent(r: Result, rollback: Rollback) {
    r != InvalidArgument || rollback != NotNeeded
  }

  /** The egress update was made. */
  predicate EgressSent(r: Result, rollback: Rollback) {
    r == Ok || (r == TableUpdateTimeout && rollback != NotNeeded)
  }

  /** The doubts after a connect: its session and its fchid are cleared when the last request about
      them was answered in time, and in doubt otherwise. */
  function ConnectDoubts(doubts: map<Port, set<nat>>, inId: Id, r: Result, rollback: Rollback): map<Port, set<nat>>
    requires Sent(r, rollback) ==> Port(inId.lane, Ingress) in doubts && Port(inId.lane, Egress) in doubts
  {
    var pi, s := Port(inId.lane, Ingress), IdKey(Ingress, inId);
    if r == InvalidArgument && rollback == NotNeeded then doubts
    else if r == TableUpdateTimeout && rollback == NotNeeded then doubts[pi := doubts[pi] + {s}]
    else SecondDoubts(doubts[pi := doubts[pi] - {s}], inId, r, rollback)
  }

  /** For every hardware behaviour, a connect whose session is not recorded for another fchid, and
      whose fchid has no other session in its ingress entry, keeps agreement in both directions on
      every lane, rolled back or not. */
  lemma ConnectAgrees(h0: History, mid: History, h: History, inId: Id, outId: Id, r: Result, rollback: Rollback,
                      doubts: map<Port, set<nat>>)
    requires IsHistory(h) && ConnectSteps(h0, mid, h, inId, outId, r, rollback)
    requires r in {Ok, InvalidArgument, TableUpdateTimeout} && (r == Ok ==> rollback == NotNeeded)
    requires Sent(r, rollback) ==> inId.InTable() && inId.ValidSession()
    requires EgressSent(r, rollback) ==> outId.ValidSession()
    requires outId.lane == inId.lane && outId.fchid == inId.fchid
    requires AllAgree({Ingress, Egress}, Present(h0), doubts)
    requires Sent(r, rollback) ==>
               Undisputed(Present(h0)[Port(inId.lane, Ingress)], inId, doubts[Port(inId.lane, Ingress)])
    ensures AllAgree({Ingress, Egress}, Present(h), ConnectDoubts(doubts, inId, r, rollback))
  {
    if r == InvalidArgument && rollback == NotNeeded {
    } else if r == TableUpdateTimeout && rollback == NotNeeded {
      StepAgrees({Ingress, Egress}, Present(h0), h.after, h.call, h.answer, doubts);
    } else {
      var both, h1 := {Ingress, Egress}, mid.before;
      var doubts1 := DoubtsAfter(Present(h0), h1.call, h1.answer, doubts);
      SecondHalfHistory(mid, h, outId, DisconnectId(inId.lane, inId.fchid), Entry(inId.extif, inId.cid), r, rollback);
      StepAgrees(both, Present(h0), h1.after, h1.call, h1.answer, doubts);
      StepAgrees(both, h1.after, mid.after, mid.call, mid.answer, doubts1);
      SecondHalfAgrees(mid, h, inId, outId, r, rollback, doubts1);
    }
  }

  /** On a fresh device every session is undisputed. */
  lemma FreshUndisputed(d: Columns, id: Id)
    requires Fresh(d) && id.InTable() && id.ValidSession()
    ensures AllAgree({Ingress, Egress}, d, FreshDoubts(d))
    ensures Undisputed(d[Port(id.lane, Ingress)], id, FreshDoubts(d)[Port(id.lane, Ingress)])
  {
    FreshAgrees(d);
    assert Port(id.lane, Ingress) in d;
  }

  /** So the first connect of a device keeps agreement whatever its hardware held or had pending,
      whatever the arguments, and whenever it answers. */
  method FirstConnect(lib: ChainLibrary, lane: u32, fchid: u32, inExtif: u32, inCid: u32, outExtif: u32, outCid: u32,
                      inActive: u8, outActive: u8, direct: u8, virt: u8, blocking: u8,
                      doneIn: nat -> bool, doneOut: nat -> bool, doneUndo: nat -> bool)
    returns (r: Result, ghost rollback: Rollback)
    requires lib.Valid() && lib.dev.history.Start?
    modifies lib.dev, lib.dev.soft, lib.dev.engines
    ensures lib.Valid() && (Sent(r, rollback) ==> lane < LANE_MAX)
    ensures AllAgree({Ingress, Egress}, Present(lib.dev.history),
                     ConnectDoubts(old(FreshDoubts(Present(lib.dev.history))),
                                   ConnectId(lane, fchid, inExtif, inCid, Flags(inActive, direct, 0, 0)), r, rollback))
  {
    ghost var inId := ConnectId(lane, fchid, inExtif, inCid, Flags(inActive, direct, 0, 0));
    ghost var outId := ConnectId(lane, fchid, outExtif, outCid, Flags(outActive, 0, virt, blocking));
    ghost var h0 := lib.dev.history;
    FreshAgrees(Present(h0));
    ghost var mid;
    r, rollback, mid := lib.FpgaChainConnect(lane, fchid, inExtif, inCid, outExtif, outCid,
                                             inActive, outActive, direct, virt, blocking, doneIn, doneOut, doneUndo);
    if Sent(r, rollback) { FreshUndisputed(Present(h0), inId); }
    ConnectAgrees(h0, mid, lib.dev.history, inId, outId, r, rollback, FreshDoubts(Present(h0)));
  }

  /** Only an ingress update can be undisciplined. */
  lemma Harmless(h: History)
    requires IsHistory(h)
    ensures h.Then? && !(h.call.Update? && h.call.kind == Ingress) ==>
              IsHistory(h.before) && (DisciplinedHistory(h.before) ==> DisciplinedHistory(h))
  {
  }

  lemma SecondHalfDisciplined(h0: History, h: History, outId: Id, undoId: Id, made: Entry,
                              r: Result, rollback: Rollback)
    requires IsHistory(h0) && IsHistory(h) && EgressSteps(h0, h, outId, undoId, made, r, rollback)
    requires DisciplinedHistory(h0)
    ensures DisciplinedHistory(h)
  {
    Harmless(h);
    if r != Ok {
      Harmless(h.before);
      Harmless(h.before.before);
    }
  }

  /** A connect whose ingress update is undisputed keeps a device's history disciplined, so its soft
      and hardware tables go on agreeing. */
  lemma ConnectDisciplined(h0: History, mid: History, h: History, inId: Id, outId: Id, r: Result, rollback: Rollback)
    requires IsHistory(h0) && IsHistory(h) && ConnectSteps(h0, mid, h, inId, outId, r, rollback)
    requires r in {Ok, InvalidArgument, TableUpdateTimeout} && (r == Ok ==> rollback == NotNeeded)
    requires DisciplinedHistory(h0)
    requires Sent(r, rollback) ==>
               && inId.InTable()
               && Undisputed(Present(h0)[Port(inId.lane, Ingress)], inId, DoubtsOf(h0)[Port(inId.lane, Ingress)])
    ensures DisciplinedHistory(h)
  {
    if Sent(r, rollback) && !(r == TableUpdateTimeout && rollback == NotNeeded) {
      var undoId, made := DisconnectId(inId.lane, inId.fchid), Entry(inId.extif, inId.cid);
      SecondHalfHistory(mid, h, outId, undoId, made, r, rollback);
      assert DisciplinedHistory(mid.before);
      Harmless(mid);
      SecondHalfDisciplined(mid, h, outId, undoId, made, r, rollback);
    }
  }

  // A disconnect and the agreement of soft and hardware tables.

  /** A disconnect asks nothing of its caller: the history stays disciplined, whatever the hardware
      does. */
  lemma DisconnectDisciplined(h0: History, h: History, id: Id, inEntry: Entry, outEntry: Entry,
                              first: Result, r: Result)
    requires IsHistory(h0) && IsHistory(h) && DisconnectSteps(h0, h, id, inEntry, outEntry, first, r)
    requires DisciplinedHistory(h0)
    ensures DisciplinedHistory(h)
    ensures AllAgree({Ingress, Egress}, Present(h), DoubtsOf(h))
  {
    Harmless(h);
    if first == Ok {
      Harmless(h.before);
      Harmless(h.before.before);
    }
    HistoryAgrees({Ingress, Egress}, h);
  }

  /** When it succeeds both hardware keys are gone. */
  lemma DisconnectErases(h0: History, h: History, id: Id, inEntry: Entry, outEntry: Entry, first: Result)
    requires IsHistory(h0) && IsHistory(h) && id.InTable() && DisconnectSteps(h0, h, id, inEntry, outEntry, first, Ok)
    requires inEntry == Present(h0)[Port(id.lane, Ingress)].soft[id.fchid]
    requires outEntry == Present(h0)[Port(id.lane, Egress)].soft[id.fchid]
    ensures inEntry != EMPTY && outEntry != EMPTY
    ensures EntryKey(Ingress, id.fchid, inEntry) !in Present(h)[Port(id.lane, Ingress)].engine.table
    ensures id.fchid !in Present(h)[Port(id.lane, Egress)].engine.table
  {
    var pi, pe := Port(id.lane, Ingress), Port(id.lane, Egress);
    var one, tick := h.before.before, h.before;
    assert IsHistory(tick) && IsHistory(one);
    Untouched(one, pe);
    Untouched(tick, pe);
    DeleteGone(h, Egress, id, outEntry);
    DeleteGone(one, Ingress, id, inEntry);
    Untouched(tick, pi);
    Untouched(h, pi);
  }

  /** A delete that was answered has removed the key of its entry, and nothing is pending. */
  lemma DeleteGone(h: History, kind: Kind, id: Id, e: Entry)
    requires IsHistory(h) && id.InTable() && Did(h, Delete(kind, id), DeleteAnswer(id, e, Ok))
    requires Port(id.lane, kind) in Present(h.before) && e == Present(h.before)[Port(id.lane, kind)].soft[id.fchid]
    ensures WellFormed(e) && e != EMPTY && Port(id.lane, kind) in h.after
    ensures EntryKey(kind, id.fchid, e) !in h.after[Port(id.lane, kind)].engine.table
    ensures h.after[Port(id.lane, kind)].engine.request == Idle
  {
  }

  /** A column that is not called keeps its soft entries, and with nothing pending all of it. */
  lemma Untouched(h: History, p: Port)
    requires IsHistory(h) && h.Then? && p in Present(h.before) && (h.call.Tick? || PortOf(h.call) != p)
    ensures p in h.after && h.after[p].soft == Present(h.before)[p].soft
    ensures Present(h.before)[p].engine.request == Idle ==> h.after[p] == Present(h.before)[p]
  {
    assert Quiet(p.kind, Present(h.before)[p], h.after[p]);
  }

  lemma SecondHalfHistory(h0: History, h: History, outId: Id, undoId: Id, made: Entry, r: Result, rollback: Rollback)
    requires IsHistory(h) && EgressSteps(h0, h, outId, undoId, made, r, rollback)
    ensures IsHistory(h0)
  {
    assert IsHistory(h.before);
    if r != Ok {
      assert IsHistory(h.before.before);
      if r != InvalidArgument { assert IsHistory(h.before.before.before); }
    }
  }

  /** Time passes and the ingress entry `made` is deleted again. */
  lemma UndoAgrees(h0: History, h: History, inId: Id, undone: Result, doubts: map<Port, set<nat>>)
    requires IsHistory(h) && h.Then? && Did(h.before, Tick, NOTHING) && h.before.before == h0
    requires inId.InTable() && inId.ValidSession()
    requires var undo := DisconnectId(inId.lane, inId.fchid);
             Did(h, Delete(Ingress, undo), DeleteAnswer(undo, Entry(inId.extif, inId.cid), undone))
    requires undone in {Ok, TableUpdateTimeout} && AllAgree({Ingress, Egress}, Present(h0), doubts)
    requires Present(h0)[Port(inId.lane, Ingress)].soft[inId.fchid] == Entry(inId.extif, inId.cid)
    ensures var pi, s := Port(inId.lane, Ingress), IdKey(Ingress, inId);
            AllAgree({Ingress, Egress}, Present(h),
                     doubts[pi := if undone == Ok then doubts[pi] - {s} else doubts[pi] + {s}])
  {
    var tick := h.before;
    assert IsHistory(tick);
    StepAgrees({Ingress, Egress}, Present(h0), tick.after, tick.call, tick.answer, doubts);
    assert Port(inId.lane, Ingress) in Present(h0);
    StepAgrees({Ingress, Egress}, tick.after, h.after, h.call, h.answer, doubts);
  }

  lemma EgressAgrees(h0: History, h: History, id: Id, r: Result, doubts: map<Port, set<nat>>)
    requires IsHistory(h) && Did(h, Update(Egress, id), UpdateAnswer(id, r)) && h.before == h0
    requires id.InTable() && id.ValidSession() && AllAgree({Ingress, Egress}, Present(h0), doubts)
    ensures var pe := Port(id.lane, Egress);
            AllAgree({Ingress, Egress}, Present(h),
                     doubts[pe := if r == Ok then doubts[pe] - {id.fchid} else doubts[pe] + {id.fchid}])
    ensures Present(h)[Port(id.lane, Ingress)].soft == Present(h0)[Port(id.lane, Ingress)].soft
  {
    StepAgrees({Ingress, Egress}, Present(h0), h.after, h.call, h.answer, doubts);
    assert Port(id.lane, Ingress) in Present(h0);
  }

  lemma SecondHalfAgrees(h0: History, h: History, inId: Id, outId: Id, r: Result, rollback: Rollback,
                         doubts: map<Port, set<nat>>)
    requires IsHistory(h) && inId.InTable() && inId.ValidSession()
    requires EgressSteps(h0, h, outId, DisconnectId(inId.lane, inId.fchid), Entry(inId.extif, inId.cid), r, rollback)
    requires r in {Ok, InvalidArgument, TableUpdateTimeout}
    requires r in {Ok, TableUpdateTimeout} ==> outId.ValidSession()
    requires outId.lane == inId.lane && outId.fchid == inId.fchid
    requires AllAgree({Ingress, Egress}, Present(h0), doubts)
    requires Present(h0)[Port(inId.lane, Ingress)].soft[inId.fchid] == Entry(inId.extif, inId.cid)
    ensures AllAgree({Ingress, Egress}, Present(h), SecondDoubts(doubts, inId, r, rollback))
  {
    var pe := Port(inId.lane, Egress);
    var undone := if rollback == Undone then Ok else TableUpdateTimeout;
    if r == Ok {
      EgressAgrees(h0, h, outId, r, doubts);
    } else if r == InvalidArgument {
      UndoAgrees(h0, h, inId, undone, doubts);
    } else {
      var update := h.before.before;
      assert IsHistory(h.before) && IsHistory(update);
      EgressAgrees(h0, update, outId, r, doubts);
      UndoAgrees(update, h, inId, undone, doubts[pe := doubts[pe] + {inId.fchid}]);
      SwapPorts(doubts, pe, Port(inId.lane, Ingress), doubts[pe] + {inId.fchid},
                SecondDoubts(doubts, inId, r, rollback)[Port(inId.lane, Ingress)]);
    }
  }

  lemma SwapPorts(doubts: map<Port, set<nat>>, p: Port, q: Port, a: set<nat>, b: set<nat>)
    requires p != q
    ensures doubts[p := a][q := b] == doubts[q := b][p := a]
  {
  }

  /** The doubts after the second half. */
  function SecondDoubts(doubts: map<Port, set<nat>>, id: Id, r: Result, rollback: Rollback): map<Port, set<nat>>
    requires Port(id.lane, Ingress) in doubts && Port(id.lane, Egress) in doubts
  {
    var pi, pe, s := Port(id.lane, Ingress), Port(id.lane, Egress), IdKey(Ingress, id);
    if r == Ok then doubts[pe := doubts[pe] - {id.fchid}]
    else
      var undone := doubts[pi := if rollback == Undone then doubts[pi] - {s} else doubts[pi] + {s}];
      if r == InvalidArgument then undone else undone[pe := doubts[pe] + {id.fchid}]
  }

  // Concrete calls whose outcome surprises.

  const PROMPT: nat -> bool := _ => true
  const SILENT: nat -> bool := _ => false

  lemma PromptAnswers()
    ensures Answers(PROMPT) && !Answers(SILENT)
  {
    assert PROMPT(0);
  }

  lemma BothSet(t: map<Port, seq<Entry>>, lane: nat, f: nat, a: Entry, b: Entry)
    requires Port(lane, Ingress) in t && Port(lane, Egress) in t
    requires f < |t[Port(lane, Ingress)]| && f < |t[Port(lane, Egress)]|
    ensures var t' := SetEntry(SetEntry(t, Port(lane, Ingress), f, a), Port(lane, Egress), f, b);
            EntryAt(t', Port(lane, Ingress), f) == a && EntryAt(t', Port(lane, Egress), f) == b
  {
  }

  /** Any connected fchid: a disconnect that times out in its egress half, and another one that
      hardware answers promptly. The second says "no chain", and the egress entry is still there. */
  method DisconnectTwice(lib: ChainLibrary, lane: u32, fchid: u32) returns (first: Result, second: Result)
    requires lib.Valid() && lib.found && ValidKey(lib.lanes, lane, fchid)
    requires EntryAt(lib.dev.Table(), Port(lane, Ingress), fchid) != EMPTY
    requires EntryAt(lib.dev.Table(), Port(lane, Egress), fchid) != EMPTY
    modifies lib.dev, lib.dev.soft, lib.dev.engines
    ensures lib.Valid() && first == TableUpdateTimeout && second == FuncChainIdMismatch
    ensures EntryAt(lib.dev.Table(), Port(lane, Egress), fchid)
            == old(EntryAt(lib.dev.Table(), Port(lane, Egress), fchid))
  {
    PromptAnswers();
    ghost var was := lib.dev.Table();
    first := lib.FpgaChainDisconnect(lane, fchid, PROMPT, SILENT);
    assert first == TableUpdateTimeout && lib.dev.Table() == SetEntry(was, Port(lane, Ingress), fchid, EMPTY);
    Halves(was, lane, fchid);
    second := lib.FpgaChainDisconnect(lane, fchid, PROMPT, PROMPT);
  }

  /** Connecting again while the egress half times out fails, and the rollback takes the earlier
      ingress entry with it. */
  method ReconnectFails(lib: ChainLibrary, lane: u32, fchid: u32, cid: u32) returns (r: Result)
    requires lib.Valid() && lib.found && ValidKey(lib.lanes, lane, fchid) && cid <= CID_MAX
    modifies lib.dev, lib.dev.soft, lib.dev.engines
    ensures lib.Valid() && r == TableUpdateTimeout
    ensures EntryAt(lib.dev.Table(), Port(lane, Ingress), fchid) == EMPTY
  {
    PromptAnswers();
    ghost var was := lib.dev.Table();
    ghost var rollback, mid;
    r, rollback, mid := lib.FpgaChainConnect(lane, fchid, 0, cid, 0, cid, 0, 0, 0, 0, 0, PROMPT, SILENT, PROMPT);
    assert r == TableUpdateTimeout && rollback == Undone;
    Emptied(was, Port(lane, Ingress), fchid);
  }

  /** On a fresh device: a connected fchid loses its ingress entry to a failed reconnect. */
  method EntryLost() returns (r: Result, ingress: Entry)
    ensures r == TableUpdateTimeout && ingress == EMPTY
  {
    var dev := new ChainDevice((_, _) => Engine(0, 0, Idle, false, map[]));
    var lib := new ChainLibrary(dev, true, LANE_MAX);
    ConnectPromptly(lib);
    r := ReconnectFails(lib, 0, 3, 6);
    var egress;
    ingress, egress := dev.ReadChainSoftTable(0, 3);
  }

  /** On a fresh device: a connected fchid gets stuck half disconnected. */
  method EgressLeftBehind() returns (first: Result, second: Result, egress: Entry)
    ensures first == TableUpdateTimeout && second == FuncChainIdMismatch && egress == Entry(1, 7)
  {
    var dev := new ChainDevice((_, _) => Engine(0, 0, Idle, false, map[]));
    var lib := new ChainLibrary(dev, true, LANE_MAX);
    ConnectPromptly(lib);
    first, second := DisconnectTwice(lib, 0, 3);
    var ingress;
    ingress, egress := dev.ReadChainSoftTable(0, 3);
  }

  method ConnectPromptly(lib: ChainLibrary)
    requires lib.Valid() && lib.found && lib.lanes == LANE_MAX
    modifies lib.dev, lib.dev.soft, lib.dev.engines
    ensures lib.Valid()
    ensures EntryAt(lib.dev.Table(), Port(0, Ingress), 3) == Entry(0, 5)
    ensures EntryAt(lib.dev.Table(), Port(0, Egress), 3) == Entry(1, 7)
  {
    PromptAnswers();
    ghost var was := lib.dev.Table();
    var r, rollback, mid := lib.FpgaChainConnect(0, 3, 0, 5, 1, 7, 1, 1, 0, 0, 0, PROMPT, PROMPT, PROMPT);
    assert r == Ok;
    BothSet(was, 0, 3, Entry(0, 5), Entry(1, 7));
  }

  // The wait tests.

  /** The library reads a soft entry as two uint32_t and compares each with -1. */
  predicate Established(e: Entry) {
    U32(e.extif) != U32(-1) && U32(e.cid) != U32(-1)
  }

  predicate Disconnected(e: Entry) {
    U32(e.extif) == U32(-1) && U32(e.cid) == U32(-1)
  }

  /** The two wait tests are complementary exactly on entries that are not half empty, and every
      entry of every reachable table is such an entry. */
  lemma WaitTestsComplement(e: Entry)
    ensures (Established(e) <==> !Disconnected(e)) <==> (U32(e.extif) == U32(-1) <==> U32(e.cid) == U32(-1))
    ensures WellFormed(e) ==> (Established(e) <==> !Disconnected(e)) && (Disconnected(e) <==> Vacant(e))
  {
  }

  /** An empty entry never matches the ingress scan, although its interface compares equal to
      the largest unsigned id. */
  lemma EmptyNeverMatches(id: Id)
    ensures !Matches(EMPTY, id) && U32(EMPTY.extif) == 0xFFFF_FFFF
  {
  }
}

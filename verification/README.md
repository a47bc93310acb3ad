# Verified model of the xpcie FPGA driver's stateful protocols

This project models three protocols of the xpcie FPGA driver, and the library code on top of one of
them, in Dafny 4.11, and proves what each of them keeps over whole runs. Verify everything with
`dafny verify dfyconfig.toml`.

- **Function-chain tables** (`ChainWords`, `ChainTable`, `ChainRuns`, `ChainDriver`, `LibChain`). The driver keeps a
  soft table keyed by function-chain id (fchid) that has to mirror two hardware tables it reaches
  only through a request/response handshake with bounded polling. The ingress hardware table is
  keyed the other way round, by session.
- **Reference counters** (`Refcount`, `RefcountLock`, `RefcountCounter`). INC, DEC, WRITE, CLEAR,
  RST and GET run over lists of counters assembled for a device, a lane or a region. Together they
  are a shared/exclusive lock over overlapping sets.
- **DMA channels** (`LldmaSlots`, `LldmaOwnership`, `LldmaRegs`, `Lldma`). Slots are taken and given
  back by queues and device-to-device connections and are bound to open files. Channel registers
  are reached through a selector register.
- Beside these: bit packing of registers for arbitrary layouts (`Bits`, `Packing`), command-queue
  memory and alignment (`QueueMemory`), register addressing (`Addressing`), and what several parts
  share (`Common`).

Code that updates structures in place is modelled by classes with fields and arrays and by methods
with the source's loops and early returns. Each method is tied to a function or relation on values,
and the whole-run theorems are lemmas about those. A chain
device carries its own history, which every call extends, so the run theorems apply to the object.

## Assumptions

- **Hardware.** Writing 0 to a request register cancels what is pending and clears the response;
  writing 1, 2 or 3 starts an insertion, removal or look-up. A started request may complete at any
  read of the response, at any time after the last one, or never. Completion acts on the table and
  raises the response. A look-up of an absent key may return any word. When the driver is loaded the
  tables may hold anything and a request may be pending from before. The parameters named `done`
  say at which read of the response the hardware has answered, and `busy` whether a channel still
  drains at a given read; results are stated for all such functions. Between the first write of a
  call (which cancels) and its last one (which starts) nothing is pending on that engine, so
  the writes of one call are modelled as one step.
- **Concurrency.** Chain calls run one at a time. A refcount command is one step, because its public
  entry holds the refcount lock. DMA slot test-and-set and put are single steps under the queue
  mutex; calls of different file handles interleave between those steps, and one handle runs one
  call at a time. The registers of a call are programmed without interleaving.
- **Ranges.** lane < 4, fchid <= 511 and chid < 32, which the callers of these functions respect;
  register offsets are multiples of four, as every offset in the register headers is;
  copies between user and kernel succeed. Lane counts and the set of compiled-in modules are fixed
  during a run. Counters are mathematical integers.
- **Discipline**, where a theorem asks for one, is a predicate (`RefcountLock.Allowed`,
  `ChainRuns.Undisputed`, `LldmaOwnership.Disciplined`), and lemmas show that a step keeps the
  invariant if and only if it obeys: `ChainRuns.IngressUpdateIff` for updates,
  `LldmaOwnership.StepIff` for every channel step, `RefcountLock.ResetConservesIff` for RST. That only
  holders release is part of what a lock request is; `RefcountLock.StrangerReleaseIff` shows that any
  other DEC or CLEAR keeps the agreement if and only if the driver refuses it. What clients must do in
  terms of the calls they issue is `RefcountLock.HoldersRun` and `LldmaOwnership.ClientRun`.

## Where the code does less than expected

- Connecting an fchid whose ingress entry already names another session leaves that session in
  hardware with no soft entry. `ChainRuns.IngressUpdateIff` gives the exact condition and
  `ChainRuns.ReconnectLeavesSession` a concrete case.
- Clearing the soft table breaks the agreement, in each direction, unless every recorded entry is
  already in doubt (`ChainRuns.ResetIff`; concrete: `ChainRuns.ResetLeavesSession`).
- A rolled-back connect restores the table exactly when the fchid had no ingress entry before
  (concrete: `LibChain.EntryLost`).
- When the egress half of a disconnect times out, the egress entry stays, and every later full
  disconnect stops at the missing ingress entry without reaching it (any input:
  `LibChain.DisconnectTwice`; concrete: `LibChain.EgressLeftBehind`).
- RST on a lane or region that cuts an outstanding hold in two leaves the holder's counters
  inconsistent (`RefcountLock.ResetConservesIff`; concrete: `RefcountLock.RegionResetCutsHold`). RST
  of the whole device never does, whatever is compiled in (`RefcountLock.DeviceResetAllowed`).
- A handle that already holds a channel and allocates, or binds to a different channel, leaks the
  first one; freeing a channel another handle holds frees it under that handle
  (`LldmaOwnership.StepIff` and its parts; concrete: `LldmaOwnership.TwoAllocationsLeak` and
  `LldmaOwnership.FreedUnderHolder`).
- A DEC or CLEAR by a client that holds nothing takes another client's hold away
  (`RefcountLock.StrangerTakesHold`).
- A leaked slot keeps its key, so looking the key up still finds it although no handle owns it
  (`LldmaOwnership.TwoAllocationsLeak`). With calls interleaved, a free slot can even be left with a key
  (`LldmaOwnership.NamedWhileFree`).
- A host-buffer connection on an unavailable channel writes its buffer registers into whichever
  channel is selected (`LldmaRegs.StrayIff`; concrete: `LldmaRegs.StrayBuffer`). The other way to
  miss the channel, peer id 255 with peer address 0, cannot come from the connection call, which
  refuses address 0.
- With the driver's depth of 255 descriptors the page-rounded allocation has no slack, so the queue
  fits only because the allocator's address is page aligned
  (`QueueMemory.DriverDepthNeedsPageAlignment`).
- Looking a channel up in a direction without a key table is an invalid argument only when some
  channel is available; otherwise it answers busy (`Lldma.LldmaDevice.ScanQueue`).

## Model

| member | source | states |
|---|---|---|
| Packing.RoundTrip | driver/chain/libxpcie_chain.c:781-863 | for every layout of non-overlapping bit fields, packing and unpacking returns each value masked to the bits the layout carries |
| Packing.OverlapLoses | driver/chain/libxpcie_chain.c:781-863 | two overlapping fields always have values that do not come back, so disjointness is necessary |
| Packing.PackBit | driver/chain/libxpcie_chain.c:781-820 | a register bit owned by a field shows exactly that field's source bit |
| Packing.FaultWordRoundTrip | driver/chain/libxpcie_chain.c:781-863 | reception-fault word: eight bits of the header status, one bit of each other field |
| Packing.ProtocolWordRoundTrip | driver/chain/libxpcie_chain.c:1218-1246 | protocol-fault word returns the low bit of each of eleven fields |
| Packing.StallWordRoundTrip | driver/chain/libxpcie_chain.c:1637-1722 | stall word returns both bits of event and command although each is split over non-adjacent register bits |
| ChainWords.SessionInjective | driver/chain/libxpcie_chain.c:81-104 | the session word determines interface and cid |
| ChainWords.IngressDecodes | driver/chain/libxpcie_chain.c:81-98 | the ingress channel word decodes to the stored fchid and the low bit of each flag |
| ChainWords.EgressDecodes | driver/chain/libxpcie_chain.c:105-122 | the egress session word decodes to the stored interface, cid and the low bit of each flag |
| ChainDriver.ChainDevice.Poll | driver/chain/libxpcie_chain.c:135-148 | answers true exactly when the request completes within one hundred reads; the engine is otherwise unchanged, and other engines only move as hardware may |
| ChainDriver.ChainDevice.UpdateFuncChainTable | driver/chain/libxpcie_chain.c:69-149 | bad session refused without a register write; answered in time: hardware inserted exactly the given words and only that soft entry names the session; otherwise timeout with no soft entry changed |
| ChainDriver.ChainDevice.DeleteFuncChainTable | driver/chain/libxpcie_chain.c:152-216 | no-chain error exactly on an empty entry, touching nothing; answered in time: the recorded key is gone from hardware and the entry is empty; a timeout keeps the entry |
| ChainDriver.ChainDevice.FindSession | driver/chain/libxpcie_chain.c:235-254 | the scan finds a session exactly when some entry of some lane and either direction records it |
| ChainDriver.ChainDevice.ReadFuncChainTable | driver/chain/libxpcie_chain.c:219-316 | an unknown key is refused without a register write; a look-up answered in time returns the decoded hardware word; soft entries never change |
| ChainDriver.ChainDevice.ReadChainSoftTable | driver/chain/libxpcie_chain.c:319-336 | returns both soft entries of one fchid |
| ChainDriver.ChainDevice.constructor | driver/libxpcie.c:354-355 | a loaded device has an empty soft table, any hardware state, and an empty history |
| ChainDriver.ChainDevice.ResetChainSoftTable | driver/chain/libxpcie_chain.c:339-347 | empties every soft entry, leaves hardware alone, and starts a new history |
| ChainRuns.HistoryIsRun | driver/chain/libxpcie_chain.c:69-347 | the history a device carries is a run, so the run theorems hold of it |
| ChainRuns.WellFormedKept | driver/chain/libxpcie_chain.c:139-141 | every step keeps every soft entry either (-1,-1) or a valid interface and cid |
| ChainRuns.IngressUpdateIff | driver/chain/libxpcie_chain.c:81-148 | a successful ingress update keeps soft table and hardware inverse if and only if no other fchid records the session and the own entry is empty, the same, or in doubt |
| ChainRuns.DisputedBreaks | driver/chain/libxpcie_chain.c:135-148 | outside that condition the inverse always fails, for every table and every session |
| ChainRuns.EgressUpdateAgrees | driver/chain/libxpcie_chain.c:105-148 | a successful egress update agrees with hardware with no condition on the caller |
| ChainRuns.DeleteAgrees | driver/chain/libxpcie_chain.c:164-215 | a successful delete in either direction keeps agreement and clears the doubt about its key |
| ChainRuns.TimeoutAgrees | driver/chain/libxpcie_chain.c:135-148 | a timed-out request, completed late or not, disturbs nothing but its own key |
| ChainRuns.RunAgrees | driver/chain/libxpcie_chain.c:69-316 | agreement of soft table and hardware after any number of calls, for either direction or both |
| ChainRuns.IngressInverse | driver/chain/libxpcie_chain.c:81-215 | over every run of undisputed calls and every hardware behaviour, fchid to session and session to fchid are mutually inverse on each lane, whatever the hardware held or had pending at load, except for sessions whose last update or delete timed out |
| ChainRuns.EgressMirror | driver/chain/libxpcie_chain.c:105-209 | with no discipline at all, an fchid whose last egress update or delete did not time out has soft entry (e,c) exactly when hardware maps it to (e,c) |
| ChainRuns.HistoryAgrees | driver/chain/libxpcie_chain.c:69-316 | agreement at the end of every history, with the doubts computed from it: egress always, ingress when its updates were undisputed |
| ChainDriver.DeviceAgrees | driver/chain/libxpcie_chain.c:69-316 | so at every moment between calls a device's soft and hardware tables agree |
| ChainRuns.DeleteRetry | driver/chain/libxpcie_chain.c:164-215 | after a timed-out delete, any hardware activity and any calls that do not update or delete that fchid in that direction, a second delete names the same hardware key and is not refused; when it succeeds soft entry and hardware key are both gone |
| ChainRuns.ReconnectLeavesSession | driver/chain/libxpcie_chain.c:139-142 | concrete case: an agreeing table, one successful reconnect, and the inverse is broken |
| ChainRuns.ResetIff | driver/chain/libxpcie_chain.c:339-347 | in either direction, clearing the soft table keeps agreement with hardware if and only if every recorded entry is already in doubt |
| ChainRuns.ResetLeavesSession | driver/chain/libxpcie_chain.c:339-347 | concrete case: one connected session, then a clear, and agreement is lost |
| ChainRuns.SettledRun | driver/chain/libxpcie_chain.c:69-316 | a hardware entry survives any calls that do not update or delete its key |
| ChainRuns.ReadBack | driver/chain/libxpcie_chain.c:81-122 | after a successful update, any calls on other keys and any hardware activity, a successful look-up returns exactly the stored fchid or (interface, cid) and the low bit of each flag |
| LibChain.ChainLibrary.ConnectOne | lib/libfpga/src/libchain.c:175-249 | which arguments are invalid; answered in time exactly the requested soft entry is stored, otherwise none; the device's history gains exactly that update |
| LibChain.ChainLibrary.DisconnectOne | lib/libfpga/src/libchain.c:404-450 | mismatch exactly on an empty entry, writing no register; otherwise removed when answered in time and kept when not; the device's history gains exactly that delete |
| LibChain.ChainLibrary.FpgaChainConnect | lib/libfpga/src/libchain.c:252-315 | exact result for every hardware behaviour; success stores both entries; failure after the ingress half leaves the egress entry as it was and the ingress entry empty, or naming the new session when the rollback timed out; no trace if and only if the ingress entry was empty before; the device's history gains exactly the steps of a connect |
| LibChain.ChainLibrary.EgressOrUndo | lib/libfpga/src/libchain.c:294-308 | the second half of connect with its rollback |
| LibChain.ConnectAgrees | lib/libfpga/src/libchain.c:252-315 | for every hardware behaviour, a connect whose session no other fchid records and whose fchid has no other session keeps agreement of soft and hardware tables in both directions, with the doubts it adds |
| LibChain.FirstConnect | lib/libfpga/src/libchain.c:252-315 | the first connect of a loaded device, for all arguments, leaves the tables in agreement with exactly the doubts of the connect, whatever its hardware held or had pending and whenever it answers |
| LibChain.ConnectDisciplined | lib/libfpga/src/libchain.c:252-315 | an undisputed connect keeps the device's history disciplined, rolled back or not |
| LibChain.DisconnectDisciplined | lib/libfpga/src/libchain.c:453-485 | every disconnect keeps agreement in both directions with no condition on the caller, for every hardware behaviour |
| LibChain.DisconnectErases | lib/libfpga/src/libchain.c:453-485 | when it returns 0 both hardware keys are gone |
| LibChain.ChainLibrary.FpgaChainDisconnect | lib/libfpga/src/libchain.c:453-485 | exact result and table for every hardware behaviour; with no ingress entry it answers no-chain without writing a register; the device's history gains exactly the steps of a disconnect |
| LibChain.DisconnectIff | lib/libfpga/src/libchain.c:453-485 | in every such outcome it returned 0 if and only if it removed the egress entry, and then both entries are empty; no other entry changes |
| LibChain.ChainLibrary.DisconnectEgress | lib/libfpga/src/libchain.c:475-480 | the second half of disconnect |
| LibChain.DisconnectTwice | lib/libfpga/src/libchain.c:453-485 | for every connected fchid, a disconnect whose egress half times out makes the next one answer no-chain with the egress entry still present |
| LibChain.EgressLeftBehind | lib/libfpga/src/libchain.c:453-485 | the same from a fresh device, as a concrete sequence of calls |
| LibChain.ReconnectFails | lib/libfpga/src/libchain.c:294-308 | for every fchid, a connect whose egress half times out and whose rollback is answered leaves no ingress entry, whatever was there |
| LibChain.EntryLost | lib/libfpga/src/libchain.c:294-308 | the same from a fresh device: an earlier connection is lost |
| LibChain.ChainLibrary.WaitConnectionClb | lib/libfpga/src/libchain.c:737-771 | stops polling exactly when the entry's presence is what is waited for |
| LibChain.WaitTestsComplement | lib/libfpga/src/libchain.c:755-769 | the two wait tests are complements exactly on entries that are not half empty, which every well-formed entry is |
| LibChain.EmptyNeverMatches | driver/chain/libxpcie_chain.c:237-250 | an empty entry never matches the ingress scan although its -1 equals the largest unsigned interface id |
| Refcount.RefcountDevice.AddRefcountList | driver/libxpcie.c:539-556 | adds to the listed counters in order |
| Refcount.RefcountDevice.SetRefcountList | driver/libxpcie.c:558-575 | sets the listed counters |
| Refcount.RefcountDevice.GetRefcountList | driver/libxpcie.c:577-587 | returns the sum of the listed counters |
| Refcount.RefcountDevice.IsRefcountAny | driver/libxpcie.c:599-618 | true exactly when some listed counter passes the test |
| Refcount.AddAllAt | driver/libxpcie.c:539-556 | on a list without repetitions each listed counter moves exactly once and no other moves |
| Refcount.SetAllAt | driver/libxpcie.c:558-575 | each listed counter has the value and no other moves |
| Refcount.DevListFits | driver/libxpcie.c:806-854 | the device list names existing counters, each once, and fits its array with the sentinel for every lane count |
| Refcount.DevPrefixContains | driver/libxpcie.c:806-854 | every lane of every enabled module is on the device list |
| Refcount.LaneListUsable | driver/libxpcie.c:868-911 | the lane list names existing counters, each once, and fits its array |
| Refcount.RefcountDevice.ControlRefcountStatus | driver/libxpcie.c:744-796 | the command switch over one list |
| Refcount.RefcountDevice.ControlRefcountDev | driver/libxpcie.c:806-854 | assembles the device list and runs the command over it |
| Refcount.RefcountDevice.ControlRefcountLane | driver/libxpcie.c:868-911 | assembles the lane list, or reports no device when an enabled module lacks the lane |
| Refcount.RefcountDevice.ControlRefcountRegion | driver/libxpcie.c:924-936 | runs the command over one counter, or reports no device |
| Refcount.RefcountDevice.FpgaControlRefcount | driver/libxpcie.c:939-965 | only the whole-device region is accepted; any other is refused with no counter changed |
| RefcountLock.Grant | driver/libxpcie.c:744-782 | INC is granted exactly when no writer overlaps, WRITE exactly when nothing overlaps; the error tells which kind is in the way |
| RefcountLock.OwnRelease | driver/libxpcie.c:760-785 | a holder's own DEC or CLEAR succeeds exactly when it matches the kind of the hold |
| RefcountLock.StrangerReleaseIff | driver/libxpcie.c:760-785 | a DEC or CLEAR that gives up no hold, on any list, keeps counters and holds in agreement if and only if the driver refuses it |
| RefcountLock.StrangerTakesHold | driver/libxpcie.c:760-785 | and on the list of an outstanding hold the matching command is not refused |
| RefcountLock.Exclusion | driver/libxpcie.c:744-936 | overlapping holds are all readers |
| RefcountLock.AcquireConserves | driver/libxpcie.c:752-782 | INC and WRITE keep the agreement of counters and holds |
| RefcountLock.ReleaseConserves | driver/libxpcie.c:760-785 | DEC and CLEAR by a holder keep it |
| RefcountLock.ResetConservesIff | driver/libxpcie.c:785-788 | RST keeps it if and only if it cuts no outstanding hold in two |
| RefcountLock.DeviceResetAllowed | driver/libxpcie.c:785-788 | for every set of compiled-in modules, a device RST cuts no hold in two, so it is always allowed |
| RefcountLock.DeviceResetDropsAllIff | driver/libxpcie.c:785-788 | it drops every hold if and only if no region hold names a module left out of counting |
| RefcountLock.HoldersDisciplined | driver/libxpcie.c:939-965 | with only device RSTs, as the public entry allows, holders releasing what they hold is all the discipline needed |
| RefcountLock.RegionResetCutsHold | driver/libxpcie.c:785-788 | concrete run from fresh counters: a device INC, a region RST, and counters disagree and the holder's DEC is refused |
| RefcountLock.RunConserves | driver/libxpcie.c:744-936 | every disciplined run of device, lane and region commands keeps the agreement |
| RefcountLock.LockTheorem | driver/libxpcie.c:744-936 | after every such run each counter is -1 exactly under one WRITE hold and no INC hold and otherwise counts the INC holds covering it; writers exclude all overlap; releases by holders never fail |
| RefcountCounter.CommandRefines | driver/libxpcie.c:744-796 | one command on equal counters acts as a one-counter readers/writer lock; a failed one changes nothing; GET is list length times the count |
| RefcountCounter.DeviceRefinesLock | driver/libxpcie.c:744-854 | a whole run gives, answer by answer, the log of the one-counter lock, with all counters equal throughout |
| RefcountCounter.DeviceCounters | driver/libxpcie.c:744-854 | from zero, every counter is -1 under a writer and otherwise successful INCs minus successful DECs since the last successful RST or CLEAR |
| RefcountCounter.NeverInconsistent | driver/libxpcie.c:744-796 | over any commands on any overlapping lists, undisciplined, no counter falls below -1 and -EFAULT is never returned |
| LldmaSlots.BanksAgree | driver/lldma/xpcie_regs_lldma.h:73-99 | for every direction, acquisition and put select the array that matches the register bank |
| LldmaSlots.Alternation | driver/lldma/libxpcie_lldma.c:130-137 | with no client discipline, two successful acquisitions of a slot have a put of that slot between them |
| LldmaOwnership.StepIff | driver/lldma/xpcie_device_fops_lldma.c:31-209 | each step of alloc, bind, free, connect, disconnect or close keeps exact ownership if and only if it obeys the discipline |
| LldmaOwnership.BindIff | driver/lldma/xpcie_device_fops_lldma.c:47-51 | storing a newly taken channel in the handle keeps ownership if and only if the handle held nothing |
| LldmaOwnership.RefIff | driver/lldma/xpcie_device_fops_lldma.c:54-73 | binding by key keeps ownership if and only if the handle holds nothing or already that channel |
| LldmaOwnership.FreePutIff | driver/lldma/xpcie_device_fops_lldma.c:75-97 | a free keeps ownership if and only if it puts the slot the handle holds, or, holding none, a slot that is free |
| LldmaOwnership.TwoAllocationsLeak | driver/lldma/xpcie_device_fops_lldma.c:31-53 | concrete run: one handle allocates twice and is closed; every handle is closed and the first slot is still used, still has its key, and has no owner |
| LldmaOwnership.FreedUnderHolder | driver/lldma/xpcie_device_fops_lldma.c:75-97 | concrete run: a second handle binds to a held channel and frees it; the holder points at a free slot |
| LldmaOwnership.RunKeepsInv | driver/lldma/xpcie_device_fops_lldma.c:31-209 | exact ownership over every disciplined interleaving |
| LldmaOwnership.Ownership | driver/xpcie_device_fops.c:293-309 | a slot is used if and only if one handle, and only one, holds, acquires or releases it; with every handle closed every slot is free with an empty key even if channels did not drain |
| LldmaOwnership.ClientsDisciplined | driver/lldma/xpcie_device_fops_lldma.c:31-209 | clients that issue no allocation or bind on a holding handle and free only the channel the handle holds produce disciplined runs, over every interleaving |
| LldmaOwnership.ClientOwnership | driver/xpcie_device_fops.c:293-309 | for such clients a slot is used if and only if one handle, and only one, holds, acquires or releases it, and all slots are free after all closes |
| LldmaOwnership.HandlesStayOk | driver/lldma/xpcie_device_fops_lldma.c:31-209 | with no discipline, a handle that holds a channel always has a valid direction and channel number |
| LldmaRegs.ConnectLocalIff | driver/lldma/libxpcie_lldma.c:541-607 | a connection leaves all other channels alone, for every buffer, if and only if its buffer writes reach its own channel |
| LldmaRegs.StrayIff | driver/lldma/libxpcie_lldma.c:541-607 | with a non-zero peer address the buffer writes miss their channel if and only if the mode uses a host buffer, the channel is unavailable and another channel is selected |
| LldmaRegs.StrayBuffer | driver/lldma/libxpcie_lldma.c:541-607 | concrete case: connecting unavailable channel 1 writes channel 0's buffer size |
| LldmaRegs.ConnectProgrammed | driver/lldma/libxpcie_lldma.c:295-400 | the channel carries peer id, mode, full 64-bit peer address and buffer |
| LldmaRegs.DisconnectResets | driver/lldma/libxpcie_lldma.c:611-646 | disconnect puts the named channel at its initial values and touches no other channel or bank |
| LldmaRegs.ConnectionErased | driver/lldma/libxpcie_lldma.c:541-646 | connect then disconnect leaves the channel at fixed initial values and nothing else changed, whatever peer, mode, buffer and address |
| LldmaRegs.StartProgrammed | driver/lldma/libxpcie_lldma.c:404-464 | starting a host queue overwrites everything but the buffer registers of its own channel only |
| LldmaRegs.StartNetwork | driver/lldma/libxpcie_lldma.c:404-464 | starting a network queue only enables its own channel, in one direction |
| Lldma.LldmaDevice.CountAvailableDmaChannel | driver/lldma/libxpcie_lldma.c:650-659 | the number of channels in the union of the two masks, never more than 32 |
| Lldma.LldmaDevice.QueueSetAddr | driver/lldma/libxpcie_lldma.c:295-343 | the address registers programmed for a direction, or nothing |
| Lldma.LldmaDevice.QueueSetCtrl | driver/lldma/libxpcie_lldma.c:350-400 | the depth or peer id and mode programmed for a direction, or nothing |
| Lldma.LldmaDevice.StartQueue | driver/lldma/libxpcie_lldma.c:404-464 | the register state after a start, and both heads read back from the control register; slots untouched |
| Lldma.LldmaDevice.StopQueue | driver/lldma/libxpcie_lldma.c:499-537 | fails exactly when the channel is busy at all thirty reads; same register writes either way |
| Lldma.LldmaDevice.GetQueue | driver/lldma/libxpcie_lldma.c:106-153 | granted exactly when the slot was free; then it is used and named, its ring cleared, its heads read back and its channel started, and the map size is reported; otherwise nothing changed |
| Lldma.LldmaDevice.PutQueueInfo | driver/lldma/libxpcie_lldma.c:220-257 | the slot of the direction is free with an empty key |
| Lldma.LldmaDevice.PutQueue | driver/lldma/libxpcie_lldma.c:157-174 | the slot is given back exactly when the channel drained and the direction names an array |
| Lldma.LldmaDevice.ScanQueue | driver/lldma/libxpcie_lldma.c:187-216 | the lowest available channel of a host direction with that key, or busy when none has it; any other direction is invalid, unless no channel is available |
| Lldma.LldmaDevice.RefQueue | driver/lldma/libxpcie_lldma.c:261-288 | finds a channel if and only if some available channel has the key: the lowest receive one, else the lowest transmit one; a non-empty key finds a used slot whenever free slots have no key |
| Lldma.LldmaDevice.DevConnect | driver/lldma/libxpcie_lldma.c:541-607 | granted exactly when the slot was free; then it is used and named and exactly the connection is programmed |
| Lldma.LldmaDevice.DevDisconnect | driver/lldma/libxpcie_lldma.c:611-646 | succeeds exactly when the channel drained, and then registers are reset and the slot free; otherwise the slot stays |
| LldmaOwnership.KeyedSlotUsed | driver/lldma/libxpcie_lldma.c:187-257 | with calls one at a time and no client discipline, in every reachable state a slot with a non-empty key is used |
| LldmaOwnership.NamedWhileFree | driver/lldma/libxpcie_lldma.c:130-150 | concrete run showing that one at a time is needed: a slot freed between take and naming is free and has a key |
| Lldma.LookupFindsOwned | driver/lldma/libxpcie_lldma.c:187-216 | in every state of a disciplined run a non-empty key only finds used slots that some handle owns |
| Lldma.LldmaDevice.constructor | driver/lldma/libxpcie_lldma.c:61-91 | every slot starts free with an empty key |
| Lldma.FilePrivate.constructor | driver/xpcie_device_fops.c:254-286 | a new handle holds nothing |
| Lldma.FilePrivate.AllocQueue | driver/lldma/xpcie_device_fops_lldma.c:31-53 | succeeds exactly on a free slot, which is then taken, named, started and held; registers, queue and map size as stated; otherwise nothing changed; free slots keep an empty key |
| Lldma.FilePrivate.BindQueue | driver/lldma/xpcie_device_fops_lldma.c:54-74 | points the handle, without holding, at the lowest available receive channel with the key, else the lowest transmit one, and reports its map size; the slot is used when the key is not empty and free slots have no key; fails if and only if there is none |
| Lldma.FilePrivate.FreeQueue | driver/lldma/xpcie_device_fops_lldma.c:75-97 | exact condition for success, and then the slot is put and the handle reset; the channel is stopped exactly when the direction is the handle's; free slots keep an empty key |
| Lldma.FilePrivate.AllocConnection | driver/lldma/xpcie_device_fops_lldma.c:130-187 | exact condition for success; slot, registers and handle afterwards |
| Lldma.FilePrivate.FreeConnection | driver/lldma/xpcie_device_fops_lldma.c:188-209 | refused unless the handle holds a channel; otherwise its own channel is reset and put exactly when it drained |
| Lldma.FilePrivate.Release | driver/xpcie_device_fops.c:293-309 | closing a holder stops its channel and gives its slot back whether or not it drained; any other close changes nothing; free slots keep an empty key |
| LldmaOwnership.AllocIsRun | driver/lldma/xpcie_device_fops_lldma.c:31-187 | a successful allocation or connection is three steps of the ownership model, ending in the state the method states |
| LldmaOwnership.FreeIsRun | driver/lldma/xpcie_device_fops_lldma.c:75-209 | a successful free is three steps of the ownership model |
| LldmaOwnership.CloseIsRun | driver/xpcie_device_fops.c:293-309 | closing a holder is two steps of the ownership model |
| QueueMemory.AlignFloorMeaning | driver/lldma/libxpcie_lldma.c:16-23 | for every power of two the mask form subtracts the remainder |
| QueueMemory.AlignCeilMeaning | driver/lldma/libxpcie_lldma.c:16-23 | the least multiple not below the value, when the sum does not wrap |
| QueueMemory.CommandQueue.QueueQueInit | driver/lldma/libxpcie_lldma.c:61-91 | asks for the least number of whole pages; fails exactly when the allocator does; header and all descriptors lie inside the allocation if and only if rounding the address costs no more than the slack, in particular for page-aligned addresses |
| QueueMemory.QueueAt | driver/lldma/libxpcie_lldma.c:61-91 | in memory free from one address to another, the queue is set up exactly when its whole pages fit, and lies inside when the address is a page boundary |
| QueueMemory.DriverDepthNeedsPageAlignment | driver/lldma/libxpcie_lldma.c:61-91 | at depth 255 and 4096-byte pages the queue fits if and only if the address is page aligned |
| Addressing.Injective | driver/libxpcie.h:313-338 | different registers have different addresses |
| Addressing.WordsApart | driver/libxpcie.h:313-338 | the four bytes of different registers do not overlap |
| Addressing.RegisterSpace.RegWrite | driver/libxpcie.h:313-338 | a write to an aligned register is read back through its own accessor and changes no other register |
| Addressing.OffsetBoundNeeded | driver/libxpcie.h:313-318 | an offset of a whole length addresses the next lane |

## Left out

- ChainDriver.ChainDevice.UpdateFuncChainTable: the branch for a kind that is neither ingress nor egress is not modelled, since the two ioctl commands fix the kind; the same holds for delete and read.
- ChainDriver.ChainDevice.ResetChainSoftTable: not a step of the runs; `ChainRuns.ResetIff` says exactly when it would keep the inverse.
- ChainRuns.IngressInverse: keys already in hardware, or pending there, when the driver starts count as in doubt until a call names them.
- ChainRuns.ReadBack: the cid and fchid fields are modelled with a nine-bit mask, which changes nothing in the range the driver checks or its table allows.
- Refcount.RefcountDevice.ControlRefcountDev: lists of pointers are lists of positions among the 32 counters, and counters do not wrap at 32 bits.
- Refcount.RefcountDevice.ControlRefcountRegion: the lane and region forms are not reachable from the public entry; they are modelled as further step kinds.
- RefcountCounter.DeviceRefinesLock: GET reports through a value instead of a user pointer.
- LldmaOwnership.Ownership: a failed copy back to user space after an allocation, which puts the queue again, is not an action.
- Lldma.LldmaDevice.GetQueue: descriptors are opaque numbers, and what the control register reads back is a parameter.
- LibChain.ChainLibrary.FpgaChainConnect: the table of open devices is not modelled; whether the device id names one is the field `found`.
- Lldma.FilePrivate.AllocConnection: the direction variable is uninitialised when the user names neither direction; its value is the parameter `garbage`.
- Lldma.LldmaDevice.CountAvailableDmaChannel: the two availability masks are parameters.
- Register programming interleaved between handles: the selector write and the following access are separate critical sections, so no such property is claimed.
- Changing lane counts while commands run (the FPGA-update ioctl): the refcount theorems fix the lists.
- Numeric values of the library's error codes, whose header is not part of this model; they are a datatype.
- Wait functions around the polling callback, whose common polling loop is not part of this model.
- The other fault, status and counter accessors of the chain, direct and global modules: the packing theorem covers their arithmetic and they would add only repetitions.
- Kernel I/O: user copies, mmap, device registration, sleeps, monitor/mwait instructions and logging.
- CMS mailbox, power and temperature reads, DDR buffer constants, JSON and DPDK wrappers, and the command-line tools.

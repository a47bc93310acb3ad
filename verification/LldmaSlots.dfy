/** DMA channel slots: which array a direction selects, and the operations on one slot. */
module LldmaSlots {
  const QUEUE_PAIRS: nat := 32

  datatype Option<T> = None | Some(value: T)

  /** DMA directions; `OtherDir` stands for every value without a name. */
  datatype Dir = HostToDev | DevToHost | NwToDev | DevToNw | D2dRx | D2dTx | D2dDRx | D2dDTx | OtherDir

  /** Receive channels (`enqueues`) and transmit channels (`dequeues`). */
  datatype Bank = Rx | Tx

  datatype SlotId = SlotId(bank: Bank, chid: nat)

  /** Status and key of one slot. */
  datatype Slot = Slot(used: bool, id: string)

  type Slots = map<SlotId, Slot>

  function AllSlots(): (s: set<SlotId>)
    ensures forall k: SlotId :: k in s <==> k.chid < QUEUE_PAIRS
  {
    assert forall k: SlotId :: k == SlotId(k.bank, k.chid);
    set bank: Bank, chid: nat | chid < QUEUE_PAIRS :: SlotId(bank, chid)
  }

  /** `__IS_RX_DMA` */
  predicate IsRxDma(dir: Dir) {
    dir == HostToDev || dir == D2dRx || dir == D2dDRx || dir == NwToDev
  }

  /** The register bank the register macros select. */
  function RegisterBank(dir: Dir): Bank {
    if IsRxDma(dir) then Rx else Tx
  }

  /** The array a queue allocation selects, if it accepts the direction. */
  function QueueBank(dir: Dir): Option<Bank> {
    match dir
    case HostToDev | NwToDev => Some(Rx)
    case DevToHost | DevToNw => Some(Tx)
    case _ => None
  }

  /** The array a device-to-device connection selects. */
  function ConnectBank(dir: Dir): Option<Bank> {
    match dir
    case D2dRx | D2dDRx => Some(Rx)
    case D2dTx | D2dDTx => Some(Tx)
    case _ => None
  }

  /** The array a put selects. */
  function PutBank(dir: Dir): Option<Bank> {
    match dir
    case HostToDev | NwToDev | D2dRx | D2dDRx => Some(Rx)
    case DevToHost | DevToNw | D2dTx | D2dDTx => Some(Tx)
    case OtherDir => None
  }

  /** Acquire and put agree on the array for every direction, and it is the array of the
      register bank: a queue or connection never programs one bank and occupies the other. */
  lemma BanksAgree(dir: Dir)
    ensures QueueBank(dir).Some? ==> QueueBank(dir) == PutBank(dir)
    ensures ConnectBank(dir).Some? ==> ConnectBank(dir) == PutBank(dir)
    ensures PutBank(dir) == if dir == OtherDir then None else Some(RegisterBank(dir))
    ensures PutBank(dir).Some? <==> QueueBank(dir).Some? || ConnectBank(dir).Some?
    ensures !(QueueBank(dir).Some? && ConnectBank(dir).Some?)
  {
  }

  // The three mutex-protected or owner-only operations on a slot.

  /** Test-and-set: takes the slot if it is free. */
  function Take(q: Slots, s: SlotId): (r: (bool, Slots))
    requires s in q
    ensures r.1.Keys == q.Keys
  {
    if q[s].used then (false, q) else (true, q[s := q[s].(used := true)])
  }

  /** The owner writes the key. */
  function Name(q: Slots, s: SlotId, id: string): (r: Slots)
    requires s in q
    ensures r.Keys == q.Keys
  {
    q[s := q[s].(id := id)]
  }

  /** Clears the key and frees the slot. */
  function Put(q: Slots, s: SlotId): (r: Slots)
    requires s in q
    ensures r.Keys == q.Keys
  {
    q[s := Slot(false, "")]
  }

  /** An acquisition that found its slot free: taken, then named. */
  function Acquired(q: Slots, s: SlotId, id: string): (r: Slots)
    requires s in q
    ensures r.Keys == q.Keys
  {
    Name(Take(q, s).1, s, id)
  }

  /** What a put does for any direction: nothing when it selects no array. */
  function PutFor(q: Slots, chid: nat, dir: Dir): (r: Slots)
    requires q.Keys == AllSlots() && chid < QUEUE_PAIRS
    ensures r.Keys == q.Keys
  {
    if PutBank(dir).None? then q else Put(q, SlotId(PutBank(dir).value, chid))
  }

  /** A free slot has no key. */
  predicate FreeUnnamed(q: Slots) {
    forall s | s in q && !q[s].used :: q[s].id == ""
  }

  /** Whole acquisitions and puts keep free slots without a key. */
  lemma FreeStaysUnnamed(q: Slots, s: SlotId, id: string)
    requires FreeUnnamed(q) && s in q
    ensures !q[s].used ==> FreeUnnamed(Acquired(q, s, id))
    ensures FreeUnnamed(Put(q, s))
  {
  }

  // Alternation, with no assumption on who calls what.

  datatype SlotEvent = TryTake(s: SlotId) | DoPut(s: SlotId) | DoName(s: SlotId, id: string)

  function Apply(q: Slots, e: SlotEvent): (r: Slots)
    requires e.s in q
    ensures r.Keys == q.Keys
  {
    match e
    case TryTake(s) => Take(q, s).1
    case DoPut(s) => Put(q, s)
    case DoName(s, id) => Name(q, s, id)
  }

  /** The slots before event `n`. */
  function Before(q: Slots, run: seq<SlotEvent>, n: nat): (r: Slots)
    requires n <= |run| && forall i | 0 <= i < |run| :: run[i].s in q
    ensures r.Keys == q.Keys
  {
    if n == 0 then q else Apply(Before(q, run, n - 1), run[n - 1])
  }

  /** Event `n` acquires slot `s`. */
  predicate Acquires(q: Slots, run: seq<SlotEvent>, n: nat, s: SlotId)
    requires n < |run| && forall i | 0 <= i < |run| :: run[i].s in q
  {
    run[n] == TryTake(s) && Take(Before(q, run, n), s).0
  }

  lemma {:induction false} StaysUsed(q: Slots, run: seq<SlotEvent>, m: nat, n: nat, s: SlotId)
    requires m <= n <= |run| && s in q && forall i | 0 <= i < |run| :: run[i].s in q
    requires Before(q, run, m)[s].used && forall k | m <= k < n :: run[k] != DoPut(s)
    ensures Before(q, run, n)[s].used
    decreases n
  {
    if n > m { StaysUsed(q, run, m, n - 1, s); }
  }

  /** Two successful acquisitions of one slot are separated by a put of that slot, over every
      interleaving of slot operations by whomever. */
  lemma Alternation(q: Slots, run: seq<SlotEvent>, i: nat, j: nat, s: SlotId)
    requires i < j < |run| && s in q && forall k | 0 <= k < |run| :: run[k].s in q
    requires Acquires(q, run, i, s) && Acquires(q, run, j, s)
    ensures exists k | i < k < j :: run[k] == DoPut(s)
  {
    if forall k | i + 1 <= k < j :: run[k] != DoPut(s) {
      assert Before(q, run, i + 1) == Apply(Before(q, run, i), run[i]);
      StaysUsed(q, run, i + 1, j, s);
    }
  }
}

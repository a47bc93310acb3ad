/** The function-chain tables: the driver's soft table and, behind a request/response register
    handshake, the hardware tables it mirrors.

    The hardware is an adversary. Writing 0 to the request register cancels whatever is pending
    and clears the response. Writing 1, 2 or 3 starts an insertion, a removal or a look-up, which
    may complete at any later moment or never; completion acts on the table and raises the
    response. */
module ChainTable {
  import opened Bits
  import opened Packing
  import opened ChainWords
  import opened Common

  const FCHID_NUM: nat := 512
  const POLLING_MAX: nat := 100

  const UPDATE_TIMEOUT: int := 1
  const NO_CHAIN_FOUND: int := 2

  datatype Kind = Ingress | Egress

  /** The user's description of a chain end. */
  datatype Id = Id(lane: nat, extif: nat, cid: nat, fchid: nat,
                   enable: nat, active: nat, direct: nat, virt: nat, blocking: nat)
  {
    /** The table bounds, which the callers respect. */
    predicate InTable() {
      lane < LANE_MAX && fchid < FCHID_NUM
    }

    /** The range check of the update. */
    predicate ValidSession() {
      cid <= CID_MAX && extif <= 1
    }
  }

  /** A soft entry: two C ints, both -1 when empty. */
  datatype Entry = Entry(extif: int, cid: int)

  const EMPTY := Entry(-1, -1)

  predicate WellFormed(e: Entry) {
    e == EMPTY || (0 <= e.extif <= 1 && 0 <= e.cid <= CID_MAX)
  }

  /** The driver's test for a missing chain. */
  predicate Vacant(e: Entry) {
    e.cid == -1 || e.extif == -1
  }

  /** Session word of a soft entry. */
  function SessionOf(e: Entry): nat
    requires WellFormed(e) && e != EMPTY
  {
    SessionWord(e.extif, e.cid)
  }

  datatype Request = Idle | Insert | Remove | Lookup

  /** Registers and table of one direction of one lane. */
  datatype Engine = Engine(session: nat, channel: nat, request: Request, resp: bool, table: map<nat, nat>)

  /** The ingress table is keyed by session, the egress table by channel. */
  function Key(kind: Kind, e: Engine): nat {
    if kind == Ingress then e.session else e.channel
  }

  function Data(kind: Kind, e: Engine): nat {
    if kind == Ingress then e.channel else e.session
  }

  /** A write to the request register. */
  function WriteReq(e: Engine, value: nat): Engine
    requires value <= 3
  {
    match value
    case 0 => e.(request := Idle, resp := false)
    case 1 => e.(request := Insert)
    case 2 => e.(request := Remove)
    case 3 => e.(request := Lookup)
  }

  /** The pending request completes. A look-up of an absent key leaves any data behind. */
  predicate Completes(kind: Kind, e: Engine, e': Engine) {
    && !e.request.Idle? && e'.request.Idle? && e'.resp
    && Key(kind, e') == Key(kind, e)
    && match e.request
       case Insert => Data(kind, e') == Data(kind, e) && e'.table == e.table[Key(kind, e) := Data(kind, e)]
       case Remove => Data(kind, e') == Data(kind, e) && e'.table == e.table - {Key(kind, e)}
       case Lookup => e'.table == e.table && (Key(kind, e) in e.table ==> Data(kind, e') == e.table[Key(kind, e)])
       case Idle => false
  }

  /** What the hardware may do on its own: nothing, or complete the pending request. */
  predicate Moves(kind: Kind, e: Engine, e': Engine) {
    e' == e || Completes(kind, e, e')
  }

  /** One direction of one lane: its engine, and its soft entries by fchid. */
  datatype Column = Column(engine: Engine, soft: seq<Entry>)

  datatype Port = Port(lane: nat, kind: Kind)

  function Ports(): (ps: set<Port>)
    ensures forall p: Port :: p in ps <==> p.lane < LANE_MAX
  {
    assert forall p: Port :: p == Port(p.lane, p.kind);
    set lane: nat, kind: Kind | lane < LANE_MAX :: Port(lane, kind)
  }

  type Columns = map<Port, Column>

  predicate Sized(d: Columns) {
    d.Keys == Ports() && forall p: Port | p in d :: SoftOk(d[p].soft)
  }

  predicate SoftOk(soft: seq<Entry>) {
    |soft| == FCHID_NUM && forall f | 0 <= f < FCHID_NUM :: WellFormed(soft[f])
  }

  // The register programs of the three requests.

  function IssueUpdate(kind: Kind, e: Engine, id: Id): Engine
  {
    var e0 := WriteReq(e, 0);
    var e1 := match kind
      case Ingress =>
        e0.(session := SessionWord(id.extif, id.cid),
            channel := IngressWord(id.fchid, id.enable, id.active, id.direct))
      case Egress =>
        e0.(channel := id.fchid,
            session := EgressWord(id.extif, id.cid, id.enable, id.active, id.virt, id.blocking));
    WriteReq(e1, 1)
  }

  /** Removal and look-up name a key only: a session for ingress, an fchid for egress. */
  function IssueKey(kind: Kind, e: Engine, key: nat, request: nat): Engine
    requires 2 <= request <= 3
  {
    var e0 := WriteReq(e, 0);
    var e1 := if kind == Ingress then e0.(session := key) else e0.(channel := key);
    WriteReq(e1, request)
  }

  /** The hardware key a soft entry at `fchid` stands for. */
  function EntryKey(kind: Kind, fchid: nat, e: Entry): nat
    requires WellFormed(e) && e != EMPTY
  {
    if kind == Ingress then SessionOf(e) else fchid
  }

  /** The hardware key an id names. */
  function IdKey(kind: Kind, id: Id): nat {
    if kind == Ingress then SessionWord(id.extif, id.cid) else id.fchid
  }

  // What one call does to its own column.

  predicate UpdateStep(kind: Kind, c: Column, c': Column, id: Id, ret: int)
    requires |c.soft| == FCHID_NUM && id.InTable()
  {
    if !id.ValidSession() then ret == -EINVAL && c' == c
    else
      var q := IssueUpdate(kind, c.engine, id);
      || (ret == 0 && Completes(kind, q, c'.engine) && c'.soft == c.soft[id.fchid := Entry(id.extif, id.cid)])
      || (ret == -UPDATE_TIMEOUT && Moves(kind, q, c'.engine) && c'.soft == c.soft)
  }

  predicate DeleteStep(kind: Kind, c: Column, c': Column, id: Id, ret: int, out: Id)
    requires |c.soft| == FCHID_NUM && id.InTable() && WellFormed(c.soft[id.fchid])
  {
    var e := c.soft[id.fchid];
    if Vacant(e) then ret == -NO_CHAIN_FOUND && c' == c && out == id
    else
      var q := IssueKey(kind, c.engine, EntryKey(kind, id.fchid, e), 2);
      || (ret == 0 && Completes(kind, q, c'.engine) && c'.soft == c.soft[id.fchid := EMPTY]
          && out == id.(extif := e.extif, cid := e.cid))
      || (ret == -UPDATE_TIMEOUT && Moves(kind, q, c'.engine) && c'.soft == c.soft && out == id)
  }

  /** The scan of the ingress look-up compares an int with an unsigned id. */
  predicate Matches(e: Entry, id: Id) {
    e.cid == id.cid && U32(e.extif) == id.extif
  }

  /** Ingress: any entry of any lane and either direction. Egress: the entry of the fchid. */
  predicate Known(d: Columns, kind: Kind, id: Id)
    requires Sized(d) && id.InTable()
  {
    match kind
    case Ingress => exists p: Port, f | p in d && 0 <= f < FCHID_NUM :: Matches(d[p].soft[f], id)
    case Egress => !Vacant(d[Port(id.lane, Egress)].soft[id.fchid])
  }

  /** The fields a look-up returns. */
  function Decoded(kind: Kind, id: Id, word: nat): Id {
    match kind
    case Ingress => id.(fchid := Unpack(INGRESS_CHANNEL, word, 0), enable := Unpack(INGRESS_CHANNEL, word, 1),
                        active := Unpack(INGRESS_CHANNEL, word, 2), direct := Unpack(INGRESS_CHANNEL, word, 3))
    case Egress => id.(extif := Unpack(EGRESS_SESSION, word, 1), cid := Unpack(EGRESS_SESSION, word, 0),
                       enable := Unpack(EGRESS_SESSION, word, 2), active := Unpack(EGRESS_SESSION, word, 3),
                       virt := Unpack(EGRESS_SESSION, word, 4), blocking := Unpack(EGRESS_SESSION, word, 5))
  }

  predicate ReadStep(kind: Kind, known: bool, c: Column, c': Column, id: Id, ret: int, out: Id)
  {
    && c'.soft == c.soft
    && if !known then ret == -NO_CHAIN_FOUND && c' == c && out == id
       else
         var q := IssueKey(kind, c.engine, IdKey(kind, id), 3);
         || (ret == 0 && Completes(kind, q, c'.engine) && out == Decoded(kind, id, Data(kind, c'.engine)))
         || (ret == -UPDATE_TIMEOUT && Moves(kind, q, c'.engine) && out == id)
  }

  /** A column no call works on: its soft entries stay, its engine does what hardware may do. */
  predicate Quiet(kind: Kind, c: Column, c': Column) {
    c'.soft == c.soft && Moves(kind, c.engine, c'.engine)
  }

  predicate OthersQuiet(d: Columns, d': Columns, port: Port) {
    && d'.Keys == d.Keys
    && forall p: Port | p in d && p != port :: Quiet(p.kind, d[p], d'[p])
  }
}

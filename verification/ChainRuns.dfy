/** Whole runs of the chain tables: calls issued one at a time, hardware completing pending
    requests whenever it likes. */
module ChainRuns {
  import opened Bits
  import opened Packing
  import opened ChainWords
  import opened ChainTable
  import opened Common

  /** A call, or `Tick`: time passes and only the hardware acts. */
  datatype Call = Update(kind: Kind, id: Id) | Delete(kind: Kind, id: Id) | Read(kind: Kind, id: Id) | Tick

  datatype Answer = Answer(ret: int, out: Id)

  predicate Callable(call: Call) {
    call.Tick? || call.id.InTable()
  }

  function PortOf(call: Call): Port
    requires !call.Tick?
  {
    Port(call.id.lane, call.kind)
  }

  predicate OwnStep(d: Columns, d': Columns, call: Call, a: Answer)
    requires Sized(d) && d'.Keys == d.Keys && Callable(call) && !call.Tick?
  {
    var p := PortOf(call);
    match call
    case Update(kind, id) => UpdateStep(kind, d[p], d'[p], id, a.ret)
    case Delete(kind, id) => DeleteStep(kind, d[p], d'[p], id, a.ret, a.out)
    case Read(kind, id) => ReadStep(kind, Known(d, kind, id), d[p], d'[p], id, a.ret, a.out)
    case Tick => true
  }

  /** One step of the whole device. */
  predicate Next(d: Columns, d': Columns, call: Call, a: Answer) {
    && Sized(d) && d'.Keys == d.Keys && Callable(call)
    && if call.Tick? then forall p: Port | p in d :: Quiet(p.kind, d[p], d'[p])
       else OwnStep(d, d', call, a) && OthersQuiet(d, d', PortOf(call))
  }

  /** Every call keeps every soft entry either empty in both ints or a valid session. */
  lemma WellFormedKept(d: Columns, d': Columns, call: Call, a: Answer)
    requires Next(d, d', call, a)
    ensures Sized(d')
  {
    forall p: Port | p in d'
      ensures SoftOk(d'[p].soft)
    {
      assert call.Tick? || p != PortOf(call) ==> Quiet(p.kind, d[p], d'[p]);
    }
  }

  /** Keys whose hardware entry is in doubt: those whose last update or delete timed out. */
  function DoubtAfter(c: Column, call: Call, a: Answer, doubt: set<nat>): set<nat>
    requires SoftOk(c.soft) && Callable(call)
  {
    match call
    case Update(kind, id) =>
      if !id.ValidSession() then doubt
      else if a.ret == 0 then doubt - {IdKey(kind, id)} else doubt + {IdKey(kind, id)}
    case Delete(kind, id) =>
      var e := c.soft[id.fchid];
      if Vacant(e) then doubt
      else if a.ret == 0 then doubt - {EntryKey(kind, id.fchid, e)} else doubt + {EntryKey(kind, id.fchid, e)}
    case Read(_, _) => doubt
    case Tick => doubt
  }

  // The agreement between one soft column and its hardware table.

  /** Ingress: fchid to session in the soft column and session to fchid in the hardware table are
      inverse partial maps, sessions in doubt aside; and no session is recorded twice. */
  predicate Inverse(c: Column, doubt: set<nat>)
    requires SoftOk(c.soft)
  {
    && (forall f, g | 0 <= f < g < FCHID_NUM :: c.soft[f] == c.soft[g] ==> c.soft[f] == EMPTY)
    && (forall f | 0 <= f < FCHID_NUM && c.soft[f] != EMPTY :: SoftInHardware(c, f, doubt))
    && (forall s | s in c.engine.table && s !in doubt :: HardwareInSoft(c, s))
  }

  predicate SoftInHardware(c: Column, f: nat, doubt: set<nat>)
    requires SoftOk(c.soft) && f < FCHID_NUM && c.soft[f] != EMPTY
  {
    var s := SessionOf(c.soft[f]);
    s !in doubt ==> s in c.engine.table && Unpack(INGRESS_CHANNEL, c.engine.table[s], 0) == f
  }

  predicate HardwareInSoft(c: Column, s: nat)
    requires SoftOk(c.soft) && s in c.engine.table
  {
    var f := Unpack(INGRESS_CHANNEL, c.engine.table[s], 0);
    f < FCHID_NUM && c.soft[f] != EMPTY && SessionOf(c.soft[f]) == s
  }

  /** Egress: an fchid not in doubt has a soft entry exactly when the hardware maps it, and then
      the hardware word carries the same interface and cid. */
  predicate Mirror(c: Column, doubt: set<nat>)
    requires SoftOk(c.soft)
  {
    forall f | 0 <= f < FCHID_NUM && f !in doubt ::
      && (c.soft[f] != EMPTY <==> f in c.engine.table)
      && (c.soft[f] != EMPTY ==> Entry(Unpack(EGRESS_SESSION, c.engine.table[f], 1),
                                       Unpack(EGRESS_SESSION, c.engine.table[f], 0)) == c.soft[f])
  }

  /** A request left pending by a timed-out call can only touch a key in doubt. */
  predicate PendingInDoubt(kind: Kind, e: Engine, doubt: set<nat>) {
    e.request in {Insert, Remove} ==> Key(kind, e) in doubt
  }

  predicate Agreement(kind: Kind, c: Column, doubt: set<nat>) {
    && SoftOk(c.soft)
    && PendingInDoubt(kind, c.engine, doubt)
    && match kind case Ingress => Inverse(c, doubt) case Egress => Mirror(c, doubt)
  }

  /** What an ingress update asks of its caller: no other fchid records the session, and the
      fchid's own entry is empty, already names the session, or names one in doubt. */
  predicate Undisputed(c: Column, id: Id, doubt: set<nat>)
    requires SoftOk(c.soft) && id.InTable()
  {
    var e := Entry(id.extif, id.cid);
    var own := c.soft[id.fchid];
    && (forall g | 0 <= g < FCHID_NUM && g != id.fchid :: c.soft[g] != e)
    && (own == EMPTY || own == e || SessionOf(own) in doubt)
  }

  lemma QuietAgrees(kind: Kind, c: Column, c': Column, doubt: set<nat>)
    requires Agreement(kind, c, doubt) && Quiet(kind, c, c')
    ensures Agreement(kind, c', doubt)
  {
    var t, t' := c.engine.table, c'.engine.table;
    assert forall s | s !in doubt :: (s in t <==> s in t') && (s in t ==> t[s] == t'[s]);
    if kind == Ingress {
      forall f | 0 <= f < FCHID_NUM && c'.soft[f] != EMPTY
        ensures SoftInHardware(c', f, doubt)
      {
        assert SoftInHardware(c, f, doubt);
      }
      forall s | s in t' && s !in doubt
        ensures HardwareInSoft(c', s)
      {
        assert HardwareInSoft(c, s);
      }
    }
  }

  /** A timed-out request leaves table and soft entries alone except at its own key. */
  lemma TimeoutAgrees(kind: Kind, c: Column, q: Engine, c': Column, doubt: set<nat>, key: nat)
    requires Agreement(kind, c, doubt) && q.table == c.engine.table
    requires q.request in {Insert, Remove} && Key(kind, q) == key
    requires c'.soft == c.soft && Moves(kind, q, c'.engine)
    ensures Agreement(kind, c', doubt + {key})
  {
    var mid := Column(q, c.soft);
    assert Agreement(kind, mid, doubt + {key}) by {
      if kind == Ingress {
        forall f | 0 <= f < FCHID_NUM && c.soft[f] != EMPTY
          ensures SoftInHardware(mid, f, doubt + {key})
        {
          assert SoftInHardware(c, f, doubt);
        }
        forall s | s in q.table && s !in doubt + {key}
          ensures HardwareInSoft(mid, s)
        {
          assert HardwareInSoft(c, s);
        }
      }
    }
    QuietAgrees(kind, mid, c', doubt + {key});
  }

  /** A look-up that is issued, whatever the hardware then does, changes neither side. */
  lemma LookupAgrees(kind: Kind, c: Column, q: Engine, c': Column, doubt: set<nat>)
    requires Agreement(kind, c, doubt) && q.table == c.engine.table
    requires q.request == Lookup && c'.soft == c.soft && Moves(kind, q, c'.engine)
    ensures Agreement(kind, c', doubt)
  {
    var mid := Column(q, c.soft);
    assert Agreement(kind, mid, doubt) by {
      if kind == Ingress {
        forall f | 0 <= f < FCHID_NUM && c.soft[f] != EMPTY
          ensures SoftInHardware(mid, f, doubt)
        {
          assert SoftInHardware(c, f, doubt);
        }
        forall s | s in q.table && s !in doubt
          ensures HardwareInSoft(mid, s)
        {
          assert HardwareInSoft(c, s);
        }
      }
    }
    QuietAgrees(kind, mid, c', doubt);
  }

  lemma DistinctSessions(a: Entry, b: Entry)
    requires Occupied(a) && Occupied(b) && a != b
    ensures SessionOf(a) != SessionOf(b)
  {
    if SessionOf(a) == SessionOf(b) { SessionInjective(a.extif, a.cid, b.extif, b.cid); }
  }

  predicate Occupied(e: Entry) {
    WellFormed(e) && e != EMPTY
  }

  lemma UndisputedKeeps(c: Column, c': Column, id: Id, doubt: set<nat>)
    requires Agreement(Ingress, c, doubt) && id.InTable() && id.ValidSession()
    requires UpdateStep(Ingress, c, c', id, 0) && Undisputed(c, id, doubt)
    ensures SoftOk(c'.soft) && Inverse(c', doubt - {IdKey(Ingress, id)})
  {
    var e := Entry(id.extif, id.cid);
    var s := SessionOf(e);
    var doubt' := doubt - {s};
    var t := c'.engine.table;
    assert t == c.engine.table[s := IngressWord(id.fchid, id.enable, id.active, id.direct)];
    IngressDecodes(id.fchid, id.enable, id.active, id.direct);
    forall f | 0 <= f < FCHID_NUM && c'.soft[f] != EMPTY
      ensures SoftInHardware(c', f, doubt')
    {
      if f != id.fchid {
        DistinctSessions(c.soft[f], e);
        assert SoftInHardware(c, f, doubt);
      }
    }
    forall k | k in t && k !in doubt'
      ensures HardwareInSoft(c', k)
    {
      if k != s { assert HardwareInSoft(c, k); }
    }
  }

  /** A successful ingress update keeps the inverse exactly when it was undisputed. */
  lemma IngressUpdateIff(c: Column, c': Column, id: Id, doubt: set<nat>)
    requires Agreement(Ingress, c, doubt) && id.InTable() && id.ValidSession()
    requires UpdateStep(Ingress, c, c', id, 0)
    ensures Agreement(Ingress, c', doubt - {IdKey(Ingress, id)}) <==> Undisputed(c, id, doubt)
  {
    if Undisputed(c, id, doubt) {
      UndisputedKeeps(c, c', id, doubt);
    } else {
      DisputedBreaks(c, c', id, doubt);
    }
  }

  lemma DisputedBreaks(c: Column, c': Column, id: Id, doubt: set<nat>)
    requires Agreement(Ingress, c, doubt) && id.InTable() && id.ValidSession()
    requires UpdateStep(Ingress, c, c', id, 0) && !Undisputed(c, id, doubt)
    ensures SoftOk(c'.soft) && !Inverse(c', doubt - {IdKey(Ingress, id)})
  {
    var e := Entry(id.extif, id.cid);
    if g :| 0 <= g < FCHID_NUM && g != id.fchid && c.soft[g] == e {
      assert c'.soft[g] == c'.soft[id.fchid] == e;
    } else {
      var own := c.soft[id.fchid];
      DistinctSessions(own, e);
      assert SoftInHardware(c, id.fchid, doubt);
      assert SessionOf(own) in c'.engine.table && SessionOf(own) !in doubt;
      assert !HardwareInSoft(c', SessionOf(own));
    }
  }

  /** A successful egress update needs nothing of its caller. */
  lemma EgressUpdateAgrees(c: Column, c': Column, id: Id, doubt: set<nat>)
    requires Agreement(Egress, c, doubt) && id.InTable() && id.ValidSession()
    requires UpdateStep(Egress, c, c', id, 0)
    ensures Agreement(Egress, c', doubt - {id.fchid})
  {
    EgressDecodes(id.extif, id.cid, id.enable, id.active, id.virt, id.blocking);
    assert c'.engine.table
           == c.engine.table[id.fchid := EgressWord(id.extif, id.cid, id.enable, id.active, id.virt, id.blocking)];
  }

  lemma DeleteAgrees(kind: Kind, c: Column, c': Column, id: Id, out: Id, doubt: set<nat>)
    requires Agreement(kind, c, doubt) && id.InTable() && !Vacant(c.soft[id.fchid])
    requires DeleteStep(kind, c, c', id, 0, out)
    ensures Agreement(kind, c', doubt - {EntryKey(kind, id.fchid, c.soft[id.fchid])})
  {
    var e := c.soft[id.fchid];
    var key := EntryKey(kind, id.fchid, e);
    var doubt' := doubt - {key};
    assert c'.engine.table == c.engine.table - {key};
    assert SoftOk(c'.soft);
    if kind == Ingress {
      forall f | 0 <= f < FCHID_NUM && c'.soft[f] != EMPTY
        ensures SoftInHardware(c', f, doubt')
      {
        DistinctSessions(c.soft[f], e);
        assert SoftInHardware(c, f, doubt);
      }
      forall s | s in c'.engine.table && s !in doubt'
        ensures HardwareInSoft(c', s)
      {
        assert HardwareInSoft(c, s);
      }
    }
  }

  /** Agreement of every column of the given directions, with the doubts collected so far. */
  predicate AllAgree(kinds: set<Kind>, d: Columns, doubts: map<Port, set<nat>>) {
    && Sized(d) && doubts.Keys == d.Keys
    && forall p: Port | p in d && p.kind in kinds :: Agreement(p.kind, d[p], doubts[p])
  }

  function DoubtsAfter(d: Columns, call: Call, a: Answer, doubts: map<Port, set<nat>>): map<Port, set<nat>>
    requires Sized(d) && Callable(call) && doubts.Keys == d.Keys
  {
    if call.Tick? then doubts
    else doubts[PortOf(call) := DoubtAfter(d[PortOf(call)], call, a, doubts[PortOf(call)])]
  }

  /** The only discipline asked of clients: ingress updates are undisputed. */
  predicate Disciplined(d: Columns, call: Call, doubts: map<Port, set<nat>>)
    requires Sized(d) && Callable(call) && doubts.Keys == d.Keys
  {
    call.Update? && call.kind == Ingress && call.id.ValidSession() ==>
      Undisputed(d[PortOf(call)], call.id, doubts[PortOf(call)])
  }

  lemma OwnStepAgrees(d: Columns, d': Columns, call: Call, a: Answer, doubts: map<Port, set<nat>>)
    requires Next(d, d', call, a) && !call.Tick? && doubts.Keys == d.Keys
    requires Agreement(call.kind, d[PortOf(call)], doubts[PortOf(call)]) && Disciplined(d, call, doubts)
    ensures Agreement(call.kind, d'[PortOf(call)], DoubtAfter(d[PortOf(call)], call, a, doubts[PortOf(call)]))
  {
    var p := PortOf(call);
    var c, c', doubt := d[p], d'[p], doubts[p];
    match call {
      case Update(kind, id) =>
        if id.ValidSession() {
          if a.ret != 0 {
            TimeoutAgrees(kind, c, IssueUpdate(kind, c.engine, id), c', doubt, IdKey(kind, id));
          } else if kind == Ingress {
            IngressUpdateIff(c, c', id, doubt);
          } else {
            EgressUpdateAgrees(c, c', id, doubt);
          }
        }
      case Delete(kind, id) =>
        var e := c.soft[id.fchid];
        if !Vacant(e) {
          var key := EntryKey(kind, id.fchid, e);
          if a.ret != 0 {
            TimeoutAgrees(kind, c, IssueKey(kind, c.engine, key, 2), c', doubt, key);
          } else {
            DeleteAgrees(kind, c, c', id, a.out, doubt);
          }
        }
      case Read(kind, id) =>
        if Known(d, kind, id) {
          LookupAgrees(kind, c, IssueKey(kind, c.engine, IdKey(kind, id), 3), c', doubt);
        }
    }
  }

  lemma StepAgrees(kinds: set<Kind>, d: Columns, d': Columns, call: Call, a: Answer, doubts: map<Port, set<nat>>)
    requires AllAgree(kinds, d, doubts) && Next(d, d', call, a) && (Ingress in kinds ==> Disciplined(d, call, doubts))
    ensures AllAgree(kinds, d', DoubtsAfter(d, call, a, doubts))
  {
    var doubts' := DoubtsAfter(d, call, a, doubts);
    WellFormedKept(d, d', call, a);
    forall p: Port | p in d' && p.kind in kinds
      ensures Agreement(p.kind, d'[p], doubts'[p])
    {
      if !call.Tick? && p == PortOf(call) {
        OwnStepAgrees(d, d', call, a, doubts);
      } else {
        QuietAgrees(p.kind, d[p], d'[p], doubts[p]);
      }
    }
  }

  /** A run: the states `ds[0..]`, and the call and answer that led from each to the next. */
  predicate IsRun(ds: seq<Columns>, calls: seq<Call>, answers: seq<Answer>) {
    && |ds| == |calls| + 1 == |answers| + 1
    && (forall i | 0 <= i < |ds| :: Sized(ds[i]))
    && forall i {:trigger StepAt(ds, calls, answers, i)} | 0 <= i < |calls| :: StepAt(ds, calls, answers, i)
  }

  /** Step number `i` of a run. */
  predicate StepAt(ds: seq<Columns>, calls: seq<Call>, answers: seq<Answer>, i: nat)
    requires |ds| == |calls| + 1 == |answers| + 1 && i < |calls|
  {
    Next(ds[i], ds[i + 1], calls[i], answers[i])
  }

  /** A run followed by one more step is a run. */
  lemma ExtendRun(ds: seq<Columns>, calls: seq<Call>, answers: seq<Answer>, d: Columns, call: Call, a: Answer)
    requires IsRun(ds, calls, answers) && Next(ds[|calls|], d, call, a)
    ensures IsRun(ds + [d], calls + [call], answers + [a])
  {
    WellFormedKept(ds[|calls|], d, call, a);
    var more := ds + [d];
    forall i | 0 <= i < |calls| + 1
      ensures StepAt(more, calls + [call], answers + [a], i)
    {
      if i < |calls| { assert StepAt(ds, calls, answers, i); }
    }
  }

  /** The same as a list that grows at its end, as a device records it from the moment its soft table
      is empty. */
  datatype History =
    | Start(first: Columns)
    | Then(before: History, call: Call, answer: Answer, after: Columns)

  function Present(h: History): Columns {
    match h
    case Start(d) => d
    case Then(_, _, _, d) => d
  }

  predicate IsHistory(h: History) {
    match h
    case Start(d) => Fresh(d)
    case Then(before, call, a, d) => IsHistory(before) && Next(Present(before), d, call, a) && Sized(d)
  }

  function StatesOf(h: History): (ds: seq<Columns>)
    ensures |ds| == |CallsOf(h)| + 1 == |AnswersOf(h)| + 1 && ds[|ds| - 1] == Present(h)
  {
    match h
    case Start(d) => [d]
    case Then(before, _, _, d) => StatesOf(before) + [d]
  }

  function CallsOf(h: History): seq<Call> {
    match h
    case Start(_) => []
    case Then(before, call, _, _) => CallsOf(before) + [call]
  }

  function AnswersOf(h: History): seq<Answer> {
    match h
    case Start(_) => []
    case Then(before, _, a, _) => AnswersOf(before) + [a]
  }

  /** Every history is a run, so whatever is proved of runs holds of devices. */
  lemma {:induction false} HistoryIsRun(h: History)
    requires IsHistory(h)
    ensures IsRun(StatesOf(h), CallsOf(h), AnswersOf(h))
  {
    if h.Then? {
      HistoryIsRun(h.before);
      ExtendRun(StatesOf(h.before), CallsOf(h.before), AnswersOf(h.before), h.after, h.call, h.answer);
    }
  }

  /** `doubts[i]` are the keys in doubt after `i` steps of the run. */
  predicate DoubtHistory(ds: seq<Columns>, calls: seq<Call>, answers: seq<Answer>, doubts: seq<map<Port, set<nat>>>)
    requires IsRun(ds, calls, answers)
  {
    && |doubts| == |ds|
    && (forall i | 0 <= i < |doubts| :: doubts[i].Keys == ds[i].Keys)
    && forall i | 0 <= i < |calls| ::
         StepAt(ds, calls, answers, i) && doubts[i + 1] == DoubtsAfter(ds[i], calls[i], answers[i], doubts[i])
  }

  predicate DisciplinedRun(ds: seq<Columns>, calls: seq<Call>, answers: seq<Answer>, doubts: seq<map<Port, set<nat>>>)
    requires IsRun(ds, calls, answers) && DoubtHistory(ds, calls, answers, doubts)
  {
    forall i | 0 <= i < |calls| ::
      StepAt(ds, calls, answers, i) && Disciplined(ds[i], calls[i], doubts[i])
  }

  /** Before the first call the soft entries are empty. Of the hardware nothing is known: its
      tables may hold entries, and a request may still be pending. */
  predicate Fresh(d: Columns) {
    Sized(d) && forall p: Port | p in d :: forall f | 0 <= f < FCHID_NUM :: d[p].soft[f] == EMPTY
  }

  /** So every key in a table, and the key of a pending insertion or removal, is in doubt. */
  function FreshDoubts(d: Columns): map<Port, set<nat>> {
    map p: Port | p in d :: d[p].engine.table.Keys + PendingKey(p.kind, d[p].engine)
  }

  function PendingKey(kind: Kind, e: Engine): set<nat> {
    if e.request in {Insert, Remove} then {Key(kind, e)} else {}
  }

  lemma FreshAgrees(d: Columns)
    requires Fresh(d)
    ensures AllAgree({Ingress, Egress}, d, FreshDoubts(d))
  {
  }

  lemma {:induction false} RunAgrees(kinds: set<Kind>, ds: seq<Columns>, calls: seq<Call>, answers: seq<Answer>,
                                     doubts: seq<map<Port, set<nat>>>, n: nat)
    requires IsRun(ds, calls, answers) && DoubtHistory(ds, calls, answers, doubts) && n <= |calls|
    requires AllAgree(kinds, ds[0], doubts[0])
    requires Ingress in kinds ==> DisciplinedRun(ds, calls, answers, doubts)
    ensures AllAgree(kinds, ds[n], doubts[n])
    decreases n
  {
    if n > 0 {
      RunAgrees(kinds, ds, calls, answers, doubts, n - 1);
      assert StepAt(ds, calls, answers, n - 1);
      StepAgrees(kinds, ds[n - 1], ds[n], calls[n - 1], answers[n - 1], doubts[n - 1]);
    }
  }

  /** Over every run whose ingress updates are undisputed, whatever the hardware completes and
      when: each ingress column is the inverse of its hardware table outside the sessions in
      doubt. */
  lemma IngressInverse(ds: seq<Columns>, calls: seq<Call>, answers: seq<Answer>, doubts: seq<map<Port, set<nat>>>,
                       n: nat, lane: nat)
    requires IsRun(ds, calls, answers) && DoubtHistory(ds, calls, answers, doubts) && n <= |calls| && lane < LANE_MAX
    requires Fresh(ds[0]) && doubts[0] == FreshDoubts(ds[0]) && DisciplinedRun(ds, calls, answers, doubts)
    ensures Port(lane, Ingress) in ds[n]
    ensures SoftOk(ds[n][Port(lane, Ingress)].soft)
    ensures Inverse(ds[n][Port(lane, Ingress)], doubts[n][Port(lane, Ingress)])
  {
    FreshAgrees(ds[0]);
    RunAgrees({Ingress}, ds, calls, answers, doubts, n);
    assert Port(lane, Ingress) in ds[n];
  }

  /** The egress columns agree with hardware over every run, with no discipline at all. */
  lemma EgressMirror(ds: seq<Columns>, calls: seq<Call>, answers: seq<Answer>, doubts: seq<map<Port, set<nat>>>,
                     n: nat, lane: nat)
    requires IsRun(ds, calls, answers) && DoubtHistory(ds, calls, answers, doubts) && n <= |calls| && lane < LANE_MAX
    requires Fresh(ds[0]) && doubts[0] == FreshDoubts(ds[0])
    ensures Port(lane, Egress) in ds[n]
    ensures SoftOk(ds[n][Port(lane, Egress)].soft) && Mirror(ds[n][Port(lane, Egress)], doubts[n][Port(lane, Egress)])
  {
    FreshAgrees(ds[0]);
    RunAgrees({Egress}, ds, calls, answers, doubts, n);
    assert Port(lane, Egress) in ds[n];
  }

  /** The call can change the soft entry of `fchid` behind port `p`. */
  predicate Rewrites(call: Call, p: Port, fchid: nat) {
    (call.Update? || call.Delete?) && PortOf(call) == p && call.id.fchid == fchid
  }

  lemma {:induction false} EntryStays(ds: seq<Columns>, calls: seq<Call>, answers: seq<Answer>, m: nat, n: nat,
                                      p: Port, fchid: nat)
    requires IsRun(ds, calls, answers) && m <= n <= |calls| && p.lane < LANE_MAX && fchid < FCHID_NUM
    requires forall i | m <= i < n :: !Rewrites(calls[i], p, fchid)
    ensures ds[n][p].soft[fchid] == ds[m][p].soft[fchid]
    decreases n
  {
    if n > m {
      EntryStays(ds, calls, answers, m, n - 1, p, fchid);
      assert StepAt(ds, calls, answers, n - 1);
      assert p in ds[n - 1];
      assert calls[n - 1].Tick? || p != PortOf(calls[n - 1]) ==> Quiet(p.kind, ds[n - 1][p], ds[n][p]);
    }
  }

  /** The keys in doubt at the end of a history. */
  function DoubtsOf(h: History): (r: map<Port, set<nat>>)
    requires IsHistory(h)
    ensures r.Keys == Present(h).Keys
  {
    match h
    case Start(d) => FreshDoubts(d)
    case Then(before, call, a, _) => DoubtsAfter(Present(before), call, a, DoubtsOf(before))
  }

  /** Every ingress update of the history was undisputed. */
  predicate DisciplinedHistory(h: History)
    requires IsHistory(h)
  {
    match h
    case Start(_) => true
    case Then(before, call, _, _) => Disciplined(Present(before), call, DoubtsOf(before)) && DisciplinedHistory(before)
  }

  /** Soft table and hardware agree at the end of every history: egress always, ingress when its
      updates were undisputed. */
  lemma {:induction false} HistoryAgrees(kinds: set<Kind>, h: History)
    requires IsHistory(h) && (Ingress in kinds ==> DisciplinedHistory(h))
    ensures AllAgree(kinds, Present(h), DoubtsOf(h))
  {
    match h
    case Start(d) => FreshAgrees(d);
    case Then(before, call, a, d) =>
      HistoryAgrees(kinds, before);
      StepAgrees(kinds, Present(before), d, call, a, DoubtsOf(before));
  }

  /** A delete that times out can be retried: after any hardware activity and any calls that do
      not update or delete that fchid in that direction, a second delete names the same hardware
      key, is not refused, and on success has removed the entry from both sides. */
  lemma DeleteRetry(ds: seq<Columns>, calls: seq<Call>, answers: seq<Answer>, i: nat, j: nat,
                    kind: Kind, id: Id, id': Id)
    requires IsRun(ds, calls, answers) && i < j < |calls| && id.InTable() && id'.InTable()
    requires calls[i] == Delete(kind, id) && answers[i].ret == -UPDATE_TIMEOUT
    requires calls[j] == Delete(kind, id') && id'.lane == id.lane && id'.fchid == id.fchid
    requires forall k | i < k < j :: !Rewrites(calls[k], Port(id.lane, kind), id.fchid)
    ensures var p := Port(id.lane, kind);
            var first, second := ds[i][p].soft[id.fchid], ds[j][p].soft[id.fchid];
            && first != EMPTY && second != EMPTY
            && EntryKey(kind, id.fchid, second) == EntryKey(kind, id.fchid, first)
            && answers[j].ret in {0, -UPDATE_TIMEOUT}
            && (answers[j].ret == 0 ==> ds[j + 1][p].soft[id.fchid] == EMPTY
                                        && EntryKey(kind, id.fchid, first) !in ds[j + 1][p].engine.table)
  {
    var p := Port(id.lane, kind);
    assert StepAt(ds, calls, answers, i) && p in ds[i];
    EntryStays(ds, calls, answers, i + 1, j, p, id.fchid);
    assert StepAt(ds, calls, answers, j) && p in ds[j];
  }

  // A concrete dispute: fchid 0 is connected to session 1 and is then connected to session 2.

  function ReconnectBefore(): Column {
    Column(Engine(0, 0, Idle, false, map[SessionWord(0, 1) := IngressWord(0, 1, 1, 0)]),
           seq(FCHID_NUM, f requires 0 <= f < FCHID_NUM => if f == 0 then Entry(0, 1) else EMPTY))
  }

  const RECONNECT := Id(0, 0, 2, 0, 1, 1, 0, 0, 0)

  function ReconnectAfter(): Column {
    var q := IssueUpdate(Ingress, ReconnectBefore().engine, RECONNECT);
    Column(q.(request := Idle, resp := true, table := q.table[q.session := q.channel]),
           ReconnectBefore().soft[0 := Entry(0, 2)])
  }

  lemma ReconnectBeforeAgrees()
    ensures Agreement(Ingress, ReconnectBefore(), {})
  {
    var c := ReconnectBefore();
    IngressDecodes(0, 1, 1, 0);
    assert c.soft[0] == Entry(0, 1) && SessionOf(Entry(0, 1)) == SessionWord(0, 1);
    assert SoftInHardware(c, 0, {});
    assert HardwareInSoft(c, SessionWord(0, 1));
  }

  /** Without the discipline the inverse fails: connecting an fchid that already has a session
      to a second session leaves the first in hardware with no soft entry. */
  lemma ReconnectLeavesSession()
    ensures Agreement(Ingress, ReconnectBefore(), {})
    ensures UpdateStep(Ingress, ReconnectBefore(), ReconnectAfter(), RECONNECT, 0)
    ensures SoftOk(ReconnectAfter().soft) && !Inverse(ReconnectAfter(), {})
  {
    ReconnectBeforeAgrees();
    assert ReconnectBefore().soft[0] == Entry(0, 1);
    DistinctSessions(Entry(0, 1), Entry(0, 2));
    DisputedBreaks(ReconnectBefore(), ReconnectAfter(), RECONNECT, {});
    assert {} - {IdKey(Ingress, RECONNECT)} == {};
  }

  /** Clearing a soft column keeps agreement, in either direction, exactly when every recorded
      entry is already in doubt, which is why runs here exclude it. */
  lemma ResetIff(kind: Kind, c: Column, c': Column, doubt: set<nat>)
    requires Agreement(kind, c, doubt) && SoftOk(c'.soft) && c'.engine == c.engine
    requires forall f | 0 <= f < FCHID_NUM :: c'.soft[f] == EMPTY
    ensures Agreement(kind, c', doubt) <==> AllInDoubt(kind, c.soft, doubt)
  {
    if AllInDoubt(kind, c.soft, doubt) {
      if kind == Ingress {
        forall s | s in c.engine.table
          ensures s in doubt
        {
          assert s !in doubt ==> HardwareInSoft(c, s);
        }
      }
    } else {
      var f :| 0 <= f < FCHID_NUM && c.soft[f] != EMPTY && EntryKey(kind, f, c.soft[f]) !in doubt;
      if kind == Ingress {
        assert SoftInHardware(c, f, doubt);
        assert !HardwareInSoft(c', SessionOf(c.soft[f]));
      }
    }
  }

  predicate AllInDoubt(kind: Kind, soft: seq<Entry>, doubt: set<nat>)
    requires SoftOk(soft)
  {
    forall f | 0 <= f < FCHID_NUM && soft[f] != EMPTY :: EntryKey(kind, f, soft[f]) in doubt
  }

  /** A concrete reset: one connected session, nothing in doubt. */
  lemma ResetLeavesSession()
    ensures Agreement(Ingress, ReconnectBefore(), {})
    ensures !Agreement(Ingress, Column(ReconnectBefore().engine, seq(FCHID_NUM, _ => EMPTY)), {})
  {
    ReconnectBeforeAgrees();
    ResetIff(Ingress, ReconnectBefore(), Column(ReconnectBefore().engine, seq(FCHID_NUM, _ => EMPTY)), {});
    assert ReconnectBefore().soft[0] == Entry(0, 1);
  }

  // Round trip through the hardware table.

  /** The hardware maps `key` to `word`, and nothing pending can change that. */
  predicate Settled(kind: Kind, e: Engine, key: nat, word: nat) {
    && key in e.table && e.table[key] == word
    && (e.request in {Insert, Remove} ==> Key(kind, e) != key)
  }

  /** The call updates or deletes the hardware entry of `key` behind port `p`. */
  predicate Touches(d: Columns, call: Call, p: Port, key: nat)
    requires Sized(d) && Callable(call)
  {
    && !call.Tick? && PortOf(call) == p
    && match call
       case Update(kind, id) => id.ValidSession() && IdKey(kind, id) == key
       case Delete(kind, id) => !Vacant(d[p].soft[id.fchid]) && EntryKey(kind, id.fchid, d[p].soft[id.fchid]) == key
       case Read(_, _) => false
       case Tick => false
  }

  function WordOf(kind: Kind, id: Id): nat {
    if kind == Ingress then IngressWord(id.fchid, id.enable, id.active, id.direct)
    else EgressWord(id.extif, id.cid, id.enable, id.active, id.virt, id.blocking)
  }

  lemma SettledQuiet(kind: Kind, c: Column, c': Column, key: nat, word: nat)
    requires Settled(kind, c.engine, key, word) && Quiet(kind, c, c')
    ensures Settled(kind, c'.engine, key, word)
  {
  }

  /** A request on another key, completed or not, leaves the entry settled. */
  lemma SettledOther(kind: Kind, e: Engine, q: Engine, e': Engine, key: nat, word: nat)
    requires Settled(kind, e, key, word) && q.table == e.table
    requires q.request == Lookup || Key(kind, q) != key
    requires Moves(kind, q, e')
    ensures Settled(kind, e', key, word)
  {
  }

  lemma SettledStep(d: Columns, d': Columns, call: Call, a: Answer, p: Port, key: nat, word: nat)
    requires Next(d, d', call, a) && p in d && Settled(p.kind, d[p].engine, key, word)
    requires !Touches(d, call, p, key)
    ensures Settled(p.kind, d'[p].engine, key, word)
  {
    if call.Tick? || p != PortOf(call) {
      SettledQuiet(p.kind, d[p], d'[p], key, word);
    } else {
      var e, e' := d[p].engine, d'[p].engine;
      match call {
        case Update(kind, id) =>
          if id.ValidSession() { SettledOther(kind, e, IssueUpdate(kind, e, id), e', key, word); }
        case Delete(kind, id) =>
          var entry := d[p].soft[id.fchid];
          if !Vacant(entry) {
            SettledOther(kind, e, IssueKey(kind, e, EntryKey(kind, id.fchid, entry), 2), e', key, word);
          }
        case Read(kind, id) =>
          if Known(d, kind, id) { SettledOther(kind, e, IssueKey(kind, e, IdKey(kind, id), 3), e', key, word); }
      }
    }
  }

  lemma {:induction false} SettledRun(ds: seq<Columns>, calls: seq<Call>, answers: seq<Answer>, m: nat, n: nat,
                                      p: Port, key: nat, word: nat)
    requires IsRun(ds, calls, answers) && m <= n <= |calls| && p.lane < LANE_MAX
    requires Settled(p.kind, ds[m][p].engine, key, word)
    requires forall i | m <= i < n :: Callable(calls[i]) && !Touches(ds[i], calls[i], p, key)
    ensures Settled(p.kind, ds[n][p].engine, key, word)
    decreases n
  {
    if n > m {
      SettledRun(ds, calls, answers, m, n - 1, p, key, word);
      assert StepAt(ds, calls, answers, n - 1);
      assert p in ds[n - 1];
      SettledStep(ds[n - 1], ds[n], calls[n - 1], answers[n - 1], p, key, word);
    }
  }

  lemma UpdateSettles(kind: Kind, c: Column, c': Column, id: Id)
    requires |c.soft| == FCHID_NUM && id.InTable() && id.ValidSession() && UpdateStep(kind, c, c', id, 0)
    ensures Settled(kind, c'.engine, IdKey(kind, id), WordOf(kind, id))
  {
  }

  lemma LookupReturns(kind: Kind, known: bool, c: Column, c': Column, ask: Id, out: Id, word: nat)
    requires Settled(kind, c.engine, IdKey(kind, ask), word) && ReadStep(kind, known, c, c', ask, 0, out)
    ensures out == Decoded(kind, ask, word)
  {
  }

  /** What a look-up should give back: the stored ids and the low bit of every stored flag. */
  function Stored(kind: Kind, id: Id, ask: Id): Id {
    match kind
    case Ingress => ask.(fchid := id.fchid, enable := And(id.enable, 1), active := And(id.active, 1),
                         direct := And(id.direct, 1))
    case Egress => ask.(extif := id.extif, cid := id.cid, enable := And(id.enable, 1), active := And(id.active, 1),
                        virt := And(id.virt, 1), blocking := And(id.blocking, 1))
  }

  lemma DecodedStored(kind: Kind, id: Id, ask: Id)
    requires id.InTable() && id.ValidSession()
    ensures Decoded(kind, ask, WordOf(kind, id)) == Stored(kind, id, ask)
  {
    match kind
    case Ingress => IngressDecodes(id.fchid, id.enable, id.active, id.direct);
    case Egress => EgressDecodes(id.extif, id.cid, id.enable, id.active, id.virt, id.blocking);
  }

  /** After a successful update, any calls on other keys and any hardware activity, a successful
      look-up of the key returns exactly what was stored. */
  lemma ReadBack(ds: seq<Columns>, calls: seq<Call>, answers: seq<Answer>, kind: Kind, id: Id, ask: Id)
    requires IsRun(ds, calls, answers) && |calls| >= 2
    requires id.InTable() && id.ValidSession() && calls[0] == Update(kind, id) && answers[0].ret == 0
    requires forall i | 1 <= i < |calls| - 1 ::
               Callable(calls[i]) && !Touches(ds[i], calls[i], Port(id.lane, kind), IdKey(kind, id))
    requires calls[|calls| - 1] == Read(kind, ask) && answers[|calls| - 1].ret == 0
    requires ask.lane == id.lane && IdKey(kind, ask) == IdKey(kind, id)
    ensures answers[|calls| - 1].out == Stored(kind, id, ask)
  {
    var p, key, word := Port(id.lane, kind), IdKey(kind, id), WordOf(kind, id);
    var n := |calls| - 1;
    assert StepAt(ds, calls, answers, 0) && p in ds[0];
    UpdateSettles(kind, ds[0][p], ds[1][p], id);
    SettledRun(ds, calls, answers, 1, n, p, key, word);
    assert StepAt(ds, calls, answers, n) && p in ds[n];
    LookupReturns(kind, Known(ds[n], kind, ask), ds[n][p], ds[n + 1][p], ask, answers[n].out, word);
    DecodedStored(kind, id, ask);
  }
}

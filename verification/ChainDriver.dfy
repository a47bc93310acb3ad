/** The driver's calls on the chain tables. A device carries its own history, which every call
    extends to a longer run. */
module ChainDriver {
  import opened ChainTable
  import opened ChainRuns
  import opened Common

  class ChainDevice {
    const soft: array3<Entry>      // lane, fchid, kind
    const engines: array2<Engine>  // lane, kind

    // What has happened since the soft table was last cleared.
    ghost var history: History

    /** The table the driver keeps has the C dimensions and only meaningful entries. */
    ghost predicate Shaped()
      reads soft
    {
      && soft.Length0 == LANE_MAX && soft.Length1 == FCHID_NUM && soft.Length2 == 2
      && engines.Length0 == LANE_MAX && engines.Length1 == 2
      && forall l, f, k | 0 <= l < LANE_MAX && 0 <= f < FCHID_NUM && 0 <= k < 2 :: WellFormed(soft[l, f, k])
    }

    /** Between calls the history is a run that ends in the present state. */
    ghost predicate Valid()
      reads this, soft, engines
    {
      Shaped() && IsHistory(history) && Present(history) == Cols()
    }

    ghost method Record(call: Call, a: Answer)
      requires Shaped() && IsHistory(history) && Next(Present(history), Cols(), call, a)
      modifies `history
      ensures Valid() && history == Then(old(history), call, a, Cols())
    {
      history := Then(history, call, a, Cols());
    }

    ghost function Soft(lane: nat, k: nat): (s: seq<Entry>)
      requires Shaped() && lane < LANE_MAX && k < 2
      reads soft
      ensures SoftOk(s)
    {
      seq(FCHID_NUM, f requires 0 <= f < FCHID_NUM == soft.Length1 && lane < soft.Length0 && k < soft.Length2
                     reads soft => soft[lane, f, k])
    }

    ghost function Col(lane: nat, k: nat): Column
      requires Shaped() && lane < LANE_MAX && k < 2
      reads soft, engines
    {
      Column(engines[lane, k], Soft(lane, k))
    }

    /** The whole device as a value. */
    ghost function Cols(): (d: Columns)
      requires Shaped()
      reads soft, engines
      ensures Sized(d)
      ensures forall p: Port | p.lane < LANE_MAX :: d[p] == Col(p.lane, Index(p.kind))
    {
      map p | p in Ports() :: Col(p.lane, Index(p.kind))
    }

    /** The soft entries alone, which the hardware cannot reach. */
    ghost function Table(): (t: map<Port, seq<Entry>>)
      requires Shaped()
      reads soft
      ensures t.Keys == Ports() && forall p: Port | p in t :: SoftOk(t[p]) && t[p] == Soft(p.lane, Index(p.kind))
    {
      map p | p in Ports() :: Soft(p.lane, Index(p.kind))
    }

    constructor (init: (nat, nat) -> Engine)
      ensures Valid() && fresh(soft) && fresh(engines) && history == Start(Cols()) && Fresh(Cols())
      ensures forall l, k | 0 <= l < LANE_MAX && 0 <= k < 2 :: engines[l, k] == init(l, k)
    {
      soft := new Entry[LANE_MAX, FCHID_NUM, 2]((_, _, _) => EMPTY);
      engines := new Engine[LANE_MAX, 2]((l, k) requires l >= 0 && k >= 0 => init(l, k));
      new;
      assert forall l, f, k | 0 <= l < LANE_MAX && 0 <= f < FCHID_NUM && 0 <= k < 2 :: soft[l, f, k] == EMPTY;
      AllEmpty();
      history := Start(Cols());
    }

    lemma AllEmpty()
      requires Shaped()
      requires forall l, f, k | 0 <= l < LANE_MAX && 0 <= f < FCHID_NUM && 0 <= k < 2 :: soft[l, f, k] == EMPTY
      ensures Fresh(Cols())
    {
    }

    /** The hardware runs for a while: any pending request may complete. */
    method Environment()
      requires Shaped()
      modifies engines
      ensures forall l, k | 0 <= l < LANE_MAX && 0 <= k < 2 :: Moves(KindAt(k), old(engines[l, k]), engines[l, k])
    {
      var l := 0;
      while l < LANE_MAX
        invariant 0 <= l <= LANE_MAX
        invariant forall i, j | 0 <= i < LANE_MAX && 0 <= j < 2 ::
                    && Moves(KindAt(j), old(engines[i, j]), engines[i, j])
                    && (i >= l ==> engines[i, j] == old(engines[i, j]))
      {
        MayComplete(l, 0);
        MayComplete(l, 1);
        l := l + 1;
      }
    }

    /** Time between two calls. */
    method Elapse()
      requires Valid()
      modifies this`history, engines
      ensures Valid() && Table() == old(Table())
      ensures history == Then(old(history), Tick, NOTHING, Cols())
    {
      Environment();
      forall p: Port | p.lane < LANE_MAX
        ensures Quiet(p.kind, old(Cols())[p], Cols()[p])
      {
        assert Soft(p.lane, Index(p.kind)) == old(Soft(p.lane, Index(p.kind)));
      }
      Record(Tick, NOTHING);
    }

    method MayComplete(l: nat, k: nat)
      requires Shaped() && l < LANE_MAX && k < 2
      modifies engines
      ensures Moves(KindAt(k), old(engines[l, k]), engines[l, k])
      ensures forall i, j | 0 <= i < LANE_MAX && 0 <= j < 2 && (i != l || j != k) :: engines[i, j] == old(engines[i, j])
    {
      var complete: bool := *;
      if complete && !engines[l, k].request.Idle? {
        Complete(l, k);
      }
    }

    /** The hardware completes the pending request. */
    method Complete(l: nat, k: nat)
      requires Shaped() && l < LANE_MAX && k < 2 && !engines[l, k].request.Idle?
      modifies engines
      ensures Completes(KindAt(k), old(engines[l, k]), engines[l, k])
      ensures forall i, j | 0 <= i < LANE_MAX && 0 <= j < 2 && (i != l || j != k) :: engines[i, j] == old(engines[i, j])
    {
      var anything: nat :| 0 <= anything;
      var e := engines[l, k];
      var key := Key(KindAt(k), e);
      var data: nat := Data(KindAt(k), e);
      match e.request {
        case Insert => e := e.(table := e.table[key := data]);
        case Remove => e := e.(table := e.table - {key});
        case Lookup =>
          data := if key in e.table then e.table[key] else anything;
          e := if k == 0 then e.(channel := data) else e.(session := data);
        case Idle =>
      }
      engines[l, k] := e.(request := Idle, resp := true);
    }

    /** The hardware runs for a while, but the engine (lane, k) completes only if `now`. */
    method EnvironmentAround(lane: nat, k: nat, now: bool)
      requires Shaped() && lane < LANE_MAX && k < 2 && !engines[lane, k].request.Idle?
      modifies engines
      ensures forall i, j | 0 <= i < LANE_MAX && 0 <= j < 2 :: Moves(KindAt(j), old(engines[i, j]), engines[i, j])
      ensures if now then Completes(KindAt(k), old(engines[lane, k]), engines[lane, k])
              else engines[lane, k] == old(engines[lane, k])
    {
      var own := engines[lane, k];
      Environment();
      engines[lane, k] := own;
      if now {
        Complete(lane, k);
      }
    }

    /** The polling loop: the response of the engine is read up to a hundred times while the
        hardware runs. `done(n)` says that the request has completed by read number `n`. */
    method Poll(lane: nat, k: nat, done: nat -> bool) returns (answered: bool)
      requires Shaped() && lane < LANE_MAX && k < 2
      requires !engines[lane, k].resp && !engines[lane, k].request.Idle?
      modifies engines
      ensures forall i, j | 0 <= i < LANE_MAX && 0 <= j < 2 :: Moves(KindAt(j), old(engines[i, j]), engines[i, j])
      ensures answered == Answers(done)
      ensures if answered then Completes(KindAt(k), old(engines[lane, k]), engines[lane, k])
              else engines[lane, k] == old(engines[lane, k])
    {
      var cnt := 0;
      while cnt < POLLING_MAX
        invariant 0 <= cnt <= POLLING_MAX && forall n | 0 <= n < cnt :: !done(n)
        invariant forall i, j | 0 <= i < LANE_MAX && 0 <= j < 2 :: Moves(KindAt(j), old(engines[i, j]), engines[i, j])
        invariant engines[lane, k] == old(engines[lane, k])
      {
        EnvironmentAround(lane, k, done(cnt));
        if engines[lane, k].resp {
          return true;
        }
        cnt := cnt + 1;
      }
      return false;
    }

    /** Programs an engine and waits for it; the soft table is not involved. */
    method Perform(lane: nat, kind: Kind, q: Engine, done: nat -> bool) returns (answered: bool)
      requires Shaped() && lane < LANE_MAX && !q.resp && !q.request.Idle?
      modifies engines
      ensures answered == Answers(done)
      ensures if answered then Completes(kind, q, Cols()[Port(lane, kind)].engine)
              else Cols()[Port(lane, kind)].engine == q
      ensures Cols()[Port(lane, kind)].soft == old(Cols()[Port(lane, kind)].soft)
      ensures OthersQuiet(old(Cols()), Cols(), Port(lane, kind))
    {
      engines[lane, Index(kind)] := q;
      answered := Poll(lane, Index(kind), done);
    }

    /** Stores one soft entry. */
    method SetSoft(lane: nat, fchid: nat, kind: Kind, e: Entry)
      requires Shaped() && lane < LANE_MAX && fchid < FCHID_NUM && WellFormed(e)
      modifies soft
      ensures Shaped()
      ensures Cols() == old(Cols())[Port(lane, kind) :=
                          Column(old(Cols())[Port(lane, kind)].engine, old(Cols())[Port(lane, kind)].soft[fchid := e])]
    {
      var k := Index(kind);
      soft[lane, fchid, k] := e;
      assert Soft(lane, k) == old(Soft(lane, k))[fchid := e];
      assert forall p: Port | p.lane < LANE_MAX && p != Port(lane, kind) ::
          Soft(p.lane, Index(p.kind)) == old(Soft(p.lane, Index(p.kind)));
    }

    method ProgramUpdate(id: Id, kind: Kind, done: nat -> bool) returns (ret: int)
      requires Shaped() && id.InTable()
      modifies soft, engines
      ensures Shaped()
      ensures UpdateStep(kind, old(Cols())[Port(id.lane, kind)], Cols()[Port(id.lane, kind)], id, ret)
      ensures ret == -EINVAL ==> unchanged(soft) && unchanged(engines)
      ensures ret == if !id.ValidSession() then -EINVAL else if Answers(done) then 0 else -UPDATE_TIMEOUT
      ensures OthersQuiet(old(Cols()), Cols(), Port(id.lane, kind))
    {
      if !id.ValidSession() {
        return -EINVAL;
      }
      var answered := Perform(id.lane, kind, IssueUpdate(kind, engines[id.lane, Index(kind)], id), done);
      if answered {
        SetSoft(id.lane, id.fchid, kind, Entry(id.extif, id.cid));
        return 0;
      }
      return -UPDATE_TIMEOUT;
    }

    method ProgramDelete(id: Id, kind: Kind, done: nat -> bool) returns (ret: int, out: Id)
      requires Shaped() && id.InTable()
      modifies soft, engines
      ensures Shaped()
      ensures DeleteStep(kind, old(Cols())[Port(id.lane, kind)], Cols()[Port(id.lane, kind)], id, ret, out)
      ensures ret != -NO_CHAIN_FOUND ==> ret == if Answers(done) then 0 else -UPDATE_TIMEOUT
      ensures ret == -NO_CHAIN_FOUND ==> unchanged(soft) && unchanged(engines)
      ensures OthersQuiet(old(Cols()), Cols(), Port(id.lane, kind))
    {
      var k := Index(kind);
      var e := soft[id.lane, id.fchid, k];
      if Vacant(e) {
        return -NO_CHAIN_FOUND, id;
      }
      var answered := Perform(id.lane, kind, IssueKey(kind, engines[id.lane, k], EntryKey(kind, id.fchid, e), 2), done);
      if answered {
        out := id.(extif := e.extif, cid := e.cid);
        SetSoft(id.lane, id.fchid, kind, EMPTY);
        return 0, out;
      }
      return -UPDATE_TIMEOUT, id;
    }

    /** The scan of the ingress look-up: every lane, every fchid, both directions. */
    method FindSession(id: Id) returns (flag: bool)
      requires Shaped() && id.InTable()
      ensures flag <==> Known(Cols(), Ingress, id)
    {
      flag := false;
      var i := 0;
      while i < LANE_MAX
        invariant 0 <= i <= LANE_MAX
        invariant flag <==> exists l, f, k | 0 <= l < i && 0 <= f < FCHID_NUM && 0 <= k < 2 ::
                              Matches(soft[l, f, k], id)
      {
        var j := 0;
        while j < FCHID_NUM
          invariant 0 <= j <= FCHID_NUM
          invariant flag <==> exists l, f, k | 0 <= l <= i && 0 <= f < FCHID_NUM && 0 <= k < 2 && (l < i || f < j) ::
                                Matches(soft[l, f, k], id)
        {
          if Matches(soft[i, j, 0], id) || Matches(soft[i, j, 1], id) {
            flag := true;
          }
          j := j + 1;
        }
        i := i + 1;
      }
      if flag {
        var l, f, k :| 0 <= l < LANE_MAX && 0 <= f < FCHID_NUM && 0 <= k < 2 && Matches(soft[l, f, k], id);
        assert Matches(Cols()[Port(l, KindAt(k))].soft[f], id);
      }
    }

    method ProgramRead(id: Id, kind: Kind, done: nat -> bool) returns (ret: int, out: Id)
      requires Shaped() && id.InTable()
      modifies engines
      ensures ReadStep(kind, Known(old(Cols()), kind, id), old(Cols())[Port(id.lane, kind)],
                       Cols()[Port(id.lane, kind)], id, ret, out)
      ensures ret != -NO_CHAIN_FOUND ==> ret == if Answers(done) then 0 else -UPDATE_TIMEOUT
      ensures OthersQuiet(old(Cols()), Cols(), Port(id.lane, kind))
    {
      var known: bool;
      if kind == Ingress {
        known := FindSession(id);
      } else {
        known := !Vacant(soft[id.lane, id.fchid, 1]);
      }
      assert known == Known(Cols(), kind, id);
      if !known {
        return -NO_CHAIN_FOUND, id;
      }
      var answered := Perform(id.lane, kind, IssueKey(kind, engines[id.lane, Index(kind)], IdKey(kind, id), 3), done);
      if answered {
        out := Decoded(kind, id, Data(kind, engines[id.lane, Index(kind)]));
        return 0, out;
      }
      return -UPDATE_TIMEOUT, id;
    }

    method UpdateFuncChainTable(id: Id, kind: Kind, done: nat -> bool) returns (ret: int)
      requires Valid() && id.InTable()
      modifies this`history, soft, engines
      ensures Valid()
      ensures UpdateStep(kind, old(Cols())[Port(id.lane, kind)], Cols()[Port(id.lane, kind)], id, ret)
      ensures ret == if !id.ValidSession() then -EINVAL else if Answers(done) then 0 else -UPDATE_TIMEOUT
      ensures OthersQuiet(old(Cols()), Cols(), Port(id.lane, kind))
      ensures ret == -EINVAL ==> unchanged(soft) && unchanged(engines)
      ensures history == Then(old(history), Update(kind, id), Answer(ret, id), Cols())
    {
      ret := ProgramUpdate(id, kind, done);
      Record(Update(kind, id), Answer(ret, id));
    }

    method DeleteFuncChainTable(id: Id, kind: Kind, done: nat -> bool) returns (ret: int, out: Id)
      requires Valid() && id.InTable()
      modifies this`history, soft, engines
      ensures Valid()
      ensures DeleteStep(kind, old(Cols())[Port(id.lane, kind)], Cols()[Port(id.lane, kind)], id, ret, out)
      ensures ret != -NO_CHAIN_FOUND ==> ret == if Answers(done) then 0 else -UPDATE_TIMEOUT
      ensures ret == -NO_CHAIN_FOUND ==> unchanged(soft) && unchanged(engines)
      ensures OthersQuiet(old(Cols()), Cols(), Port(id.lane, kind))
      ensures history == Then(old(history), Delete(kind, id), Answer(ret, out), Cols())
    {
      ret, out := ProgramDelete(id, kind, done);
      Record(Delete(kind, id), Answer(ret, out));
    }

    method ReadFuncChainTable(id: Id, kind: Kind, done: nat -> bool) returns (ret: int, out: Id)
      requires Valid() && id.InTable()
      modifies this`history, engines
      ensures Valid()
      ensures ReadStep(kind, Known(old(Cols()), kind, id), old(Cols())[Port(id.lane, kind)],
                       Cols()[Port(id.lane, kind)], id, ret, out)
      ensures ret != -NO_CHAIN_FOUND ==> ret == if Answers(done) then 0 else -UPDATE_TIMEOUT
      ensures OthersQuiet(old(Cols()), Cols(), Port(id.lane, kind))
      ensures history == Then(old(history), Read(kind, id), Answer(ret, out), Cols())
    {
      ret, out := ProgramRead(id, kind, done);
      Record(Read(kind, id), Answer(ret, out));
    }

    method ReadChainSoftTable(lane: nat, fchid: nat) returns (ingress: Entry, egress: Entry)
      requires Shaped() && lane < LANE_MAX && fchid < FCHID_NUM
      ensures ingress == Table()[Port(lane, Ingress)][fchid]
      ensures egress == Table()[Port(lane, Egress)][fchid]
    {
      ingress := soft[lane, fchid, 0];
      egress := soft[lane, fchid, 1];
    }

    method ClearSoft()
      requires Shaped()
      modifies soft
      ensures Shaped() && Fresh(Cols())
      ensures forall p: Port | p.lane < LANE_MAX :: Cols()[p].engine == old(Cols())[p].engine
    {
      forall l, f, k | 0 <= l < LANE_MAX && 0 <= f < FCHID_NUM && 0 <= k < 2 {
        soft[l, f, k] := EMPTY;
      }
    }

    /** Forgets every entry, and with them the history. */
    method ResetChainSoftTable()
      requires Valid()
      modifies this`history, soft
      ensures Valid() && history == Start(Cols()) && Fresh(Cols())
      ensures forall p: Port | p.lane < LANE_MAX :: Cols()[p].engine == old(Cols())[p].engine
    {
      ClearSoft();
      history := Start(Cols());
    }
  }

  /** At every moment between calls a device's egress entries agree with its hardware, and its
      ingress entries too when its ingress updates were undisputed. */
  lemma DeviceAgrees(dev: ChainDevice)
    requires dev.Valid()
    ensures AllAgree({Egress}, dev.Cols(), DoubtsOf(dev.history))
    ensures DisciplinedHistory(dev.history) ==> AllAgree({Ingress, Egress}, dev.Cols(), DoubtsOf(dev.history))
  {
    HistoryAgrees({Egress}, dev.history);
    if DisciplinedHistory(dev.history) { HistoryAgrees({Ingress, Egress}, dev.history); }
  }

  /** The history entry of a time step has no answer of interest. */
  const NOTHING := Answer(0, Id(0, 0, 0, 0, 0, 0, 0, 0, 0))

  /** The request completes before the driver stops polling. */
  predicate Answers(done: nat -> bool) {
    exists n | 0 <= n < POLLING_MAX :: done(n)
  }

  function Index(kind: Kind): (k: nat)
    ensures k < 2 && KindAt(k) == kind
  {
    match kind case Ingress => 0 case Egress => 1
  }

  function KindAt(k: nat): Kind
    requires k < 2
  {
    if k == 0 then Ingress else Egress
  }
}

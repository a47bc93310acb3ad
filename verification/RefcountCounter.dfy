/** The whole-device commands as a readers/writer lock with one counter, for any number of
    listed counters and with no assumption on the clients. */
module RefcountCounter {
  import opened Common
  import opened Refcount

  /** The abstract lock: `count` readers, or -1 under a writer. */
  function LockStep(count: int, cmd: Command): (r: (int, int)) {
    match cmd
    case Inc => if count == -1 then (-WRITING, count) else (0, count + 1)
    case Dec => if count == -1 then (-WRITING, count) else if count == 0 then (-EBUSY, count) else (0, count - 1)
    case Write => if count == -1 then (-WRITING, count) else if count == 0 then (0, -1) else (-USING, count)
    case Clear => if count == -1 then (0, 0) else (-USING, count)
    case Rst => (0, 0)
    case Get => (0, count)
    case Unknown => (-EINVAL, count)
  }

  predicate Uniform(cells: seq<int>, list: seq<nat>, count: int)
    requires InRange(list, |cells|)
  {
    forall i | 0 <= i < |list| :: cells[list[i]] == count
  }

  lemma {:induction false} UniformSum(cells: seq<int>, list: seq<nat>, count: int)
    requires InRange(list, |cells|) && Uniform(cells, list, count)
    ensures Sum(cells, list) == |list| * count
  {
    if list != [] { UniformSum(cells, list[..|list| - 1], count); }
  }

  /** One command on equal counters acts on all of them as the abstract lock acts on its single
      counter; counters that are not listed do not move; GET reports the count once per listed
      counter. */
  lemma CommandRefines(cells: seq<int>, list: seq<nat>, count: int, cmd: Command, got: int)
    requires Usable(list, |cells|) && list != [] && Uniform(cells, list, count) && count >= -1
    ensures var o := Control(cells, list, cmd, got);
            && o.ret == LockStep(count, cmd).0
            && |o.cells| == |cells| && Uniform(o.cells, list, LockStep(count, cmd).1)
            && (forall p | 0 <= p < |cells| && p !in list :: o.cells[p] == cells[p])
            && (o.ret != 0 ==> o.cells == cells)
            && o.got == if cmd == Get then |list| * count else got
  {
    AddAllAt(cells, list, 1);
    AddAllAt(cells, list, -1);
    SetAllAt(cells, list, -1);
    SetAllAt(cells, list, 0);
    UniformSum(cells, list, count);
    assert cells[list[0]] == count;
    assert forall i | 0 <= i < |list| :: list[i] in list;
  }

  /** One executed command: what was asked, what was answered, what GET reported. */
  datatype Entry = Entry(cmd: Command, ret: int, got: int)

  /** Counters and log after a run of commands over one list. */
  function DeviceRun(cells: seq<int>, list: seq<nat>, cmds: seq<Command>): (r: (seq<int>, seq<Entry>))
    requires InRange(list, |cells|)
    ensures |r.0| == |cells|
  {
    if cmds == [] then (cells, [])
    else
      var (before, log) := DeviceRun(cells, list, cmds[..|cmds| - 1]);
      var cmd := cmds[|cmds| - 1];
      var o := Control(before, list, cmd, 0);
      (o.cells, log + [Entry(cmd, o.ret, o.got)])
  }

  /** Count and log of the abstract lock, reporting `n` times its count on GET. */
  function LockRun(count: int, n: nat, cmds: seq<Command>): (int, seq<Entry>) {
    if cmds == [] then (count, [])
    else
      var (before, log) := LockRun(count, n, cmds[..|cmds| - 1]);
      var cmd := cmds[|cmds| - 1];
      var (ret, after) := LockStep(before, cmd);
      (after, log + [Entry(cmd, ret, if cmd == Get then n * before else 0)])
  }

  lemma {:induction false} LockCountAboveWriter(count: int, n: nat, cmds: seq<Command>)
    requires count >= -1
    ensures LockRun(count, n, cmds).0 >= -1
  {
    if cmds != [] { LockCountAboveWriter(count, n, cmds[..|cmds| - 1]); }
  }

  /** A whole run of device commands keeps the listed counters equal and gives, answer by
      answer, the log of the single-counter lock. */
  lemma {:induction false} DeviceRefinesLock(cells: seq<int>, list: seq<nat>, count: int, cmds: seq<Command>)
    requires Usable(list, |cells|) && list != [] && Uniform(cells, list, count) && count >= -1
    ensures Uniform(DeviceRun(cells, list, cmds).0, list, LockRun(count, |list|, cmds).0)
    ensures DeviceRun(cells, list, cmds).1 == LockRun(count, |list|, cmds).1
  {
    if cmds != [] {
      var init := cmds[..|cmds| - 1];
      DeviceRefinesLock(cells, list, count, init);
      LockCountAboveWriter(count, |list|, init);
      CommandRefines(DeviceRun(cells, list, init).0, list, LockRun(count, |list|, init).0, cmds[|cmds| - 1], 0);
    }
  }

  /** Successful INCs minus successful DECs since the last successful RST or CLEAR. */
  function Balance(log: seq<Entry>): int {
    if log == [] then 0
    else
      var last := log[|log| - 1];
      var before := Balance(log[..|log| - 1]);
      if last.ret != 0 then before
      else if last.cmd == Inc then before + 1
      else if last.cmd == Dec then before - 1
      else if last.cmd == Rst || last.cmd == Clear then 0
      else before
  }

  /** The last success among WRITE, CLEAR and RST was a WRITE. */
  predicate WriterIn(log: seq<Entry>) {
    log != [] &&
    var last := log[|log| - 1];
    if last.ret == 0 && last.cmd in {Write, Clear, Rst} then last.cmd == Write
    else WriterIn(log[..|log| - 1])
  }

  /** The count is determined by the answers the clients saw. */
  lemma {:induction false} CountFromLog(n: nat, cmds: seq<Command>)
    ensures var (count, log) := LockRun(0, n, cmds);
            && count == (if WriterIn(log) then -1 else Balance(log))
            && (WriterIn(log) ==> Balance(log) == 0)
  {
    if cmds != [] {
      CountFromLog(n, cmds[..|cmds| - 1]);
      var (count, log) := LockRun(0, n, cmds);
      var (before, earlier) := LockRun(0, n, cmds[..|cmds| - 1]);
      assert log[..|log| - 1] == earlier;
      LockCountAboveWriter(0, n, cmds[..|cmds| - 1]);
    }
  }

  /** From zeroed counters: after any run of whole-device commands every listed counter holds
      -1 under a writer and the balance of the log otherwise. */
  lemma DeviceCounters(cells: seq<int>, list: seq<nat>, cmds: seq<Command>, i: nat)
    requires Usable(list, |cells|) && i < |list| && Uniform(cells, list, 0)
    ensures var (after, log) := DeviceRun(cells, list, cmds);
            after[list[i]] == if WriterIn(log) then -1 else Balance(log)
  {
    DeviceRefinesLock(cells, list, 0, cmds);
    CountFromLog(|list|, cmds);
  }

  /** Any commands over any mixture of lists, undisciplined. */
  function MixedRun(cells: seq<int>, run: seq<(seq<nat>, Command)>): (r: seq<int>)
    requires forall k | 0 <= k < |run| :: Usable(run[k].0, |cells|)
    ensures |r| == |cells|
  {
    if run == [] then cells
    else
      var before := MixedRun(cells, run[..|run| - 1]);
      assert Usable(run[|run| - 1].0, |cells|);
      Control(before, run[|run| - 1].0, run[|run| - 1].1, 0).cells
  }

  /** No counter ever falls below -1, so the consistency error is never answered, whatever
      clients do and however lists overlap. */
  lemma {:induction false} NeverInconsistent(cells: seq<int>, run: seq<(seq<nat>, Command)>,
                                             list: seq<nat>, cmd: Command)
    requires forall k | 0 <= k < |run| :: Usable(run[k].0, |cells|)
    requires forall p | 0 <= p < |cells| :: cells[p] >= -1
    requires Usable(list, |cells|)
    ensures forall p | 0 <= p < |cells| :: MixedRun(cells, run)[p] >= -1
    ensures Control(MixedRun(cells, run), list, cmd, 0).ret != -EFAULT
  {
    if run != [] {
      var init := run[..|run| - 1];
      var (l, c) := run[|run| - 1];
      NeverInconsistent(cells, init, l, c);
      var before := MixedRun(cells, init);
      AddAllAt(before, l, 1);
      AddAllAt(before, l, -1);
      SetAllAt(before, l, -1);
      SetAllAt(before, l, 0);
      forall p | 0 <= p < |cells|
        ensures MixedRun(cells, run)[p] >= -1
      {
        if c == Dec && p in l {
          var i :| 0 <= i < |l| && l[i] == p;
          assert before[l[i]] >= -1;
        }
      }
    }
  }
}

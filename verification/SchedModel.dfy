/**
 The simulated CPU.  Arrival times and bursts are whole milliseconds; the clock
 counts tenths of a millisecond, so that the context-switch cost of 0.1 ms is
 one tick and every comparison the simulator makes is exact.
 */
module SchedModel {

  const TICKS: int := 10
  const SWITCH_COST: int := 1

  const IDLE: int := -1
  const SWITCH: int := -2

  datatype Proc = Proc(
    pid: int, arrival: int, burst: int,
    remain: int, firstStart: int, finish: int, started: bool, done: bool)
  {
    function Arrives(): int { TICKS * arrival }
    function Demand(): int { TICKS * burst }
  }

  datatype Segment = Segment(start: int, end: int, pid: int)

  datatype Cpu = Cpu(now: int, prev: int, ps: seq<Proc>, segs: seq<Segment>)

  /** A table as main fills it in, for the inputs the simulator is meant for. */
  ghost predicate FreshTable(ps: seq<Proc>) {
    && ValidTable(ps)
    && forall i :: 0 <= i < |ps| ==> Fresh(ps[i])
  }

  predicate Fresh(p: Proc) {
    p.remain == p.Demand() && !p.started && !p.done
  }

  ghost predicate ValidTable(ps: seq<Proc>) {
    && (forall i :: 0 <= i < |ps| ==> ValidProc(ps[i]))
    && (forall i, j :: 0 <= i < j < |ps| ==> ps[i].pid != ps[j].pid)
  }

  /** Work is left exactly while the process is not done. */
  predicate ValidProc(p: Proc) {
    && 0 <= p.pid && 0 <= p.arrival && 1 <= p.burst
    && 0 <= p.remain <= p.Demand()
    && (p.done <==> p.remain == 0)
  }

  /** The part of a table entry that the simulators never change. */
  predicate SameJob(p: Proc, q: Proc) {
    p.pid == q.pid && p.arrival == q.arrival && p.burst == q.burst
  }

  // ---------------------------------------------------------------- Gantt segments

  /** Record [start, end) for `pid`, merging with a contiguous segment of the same pid. */
  function AddSeg(segs: seq<Segment>, start: int, end: int, pid: int): seq<Segment> {
    if end <= start then segs
    else
      var n := |segs|;
      if n > 0 && segs[n - 1].end == start && segs[n - 1].pid == pid
      then segs[n - 1 := segs[n - 1].(end := end)]
      else segs + [Segment(start, end, pid)]
  }

  /** Ticks charged to `pid`. */
  function Total(segs: seq<Segment>, pid: int): int {
    if segs == [] then 0
    else
      var last := segs[|segs| - 1];
      Total(segs[..|segs| - 1], pid) + if last.pid == pid then last.end - last.start else 0
  }

  predicate Follows(a: Segment, b: Segment) {
    a.end == b.start && a.pid != b.pid
  }

  /** The segments partition [0, now): contiguous, nonempty, neighbours with different pids. */
  ghost predicate Partition(segs: seq<Segment>, now: int) {
    && (segs == [] ==> now == 0)
    && (segs != [] ==> segs[0].start == 0 && segs[|segs| - 1].end == now)
    && (forall i :: 0 <= i < |segs| ==> segs[i].start < segs[i].end)
    && (forall i :: 1 <= i < |segs| ==> Follows(segs[i - 1], segs[i]))
  }

  /** Every context switch takes exactly its cost. */
  ghost predicate SwitchesExact(segs: seq<Segment>) {
    forall i :: 0 <= i < |segs| && segs[i].pid == SWITCH ==> segs[i].end == segs[i].start + SWITCH_COST
  }

  predicate EndsWith(segs: seq<Segment>, pid: int) {
    segs != [] && segs[|segs| - 1].pid == pid
  }

  lemma AddSegPartition(segs: seq<Segment>, now: int, end: int, pid: int)
    requires Partition(segs, now) && now < end
    ensures Partition(AddSeg(segs, now, end, pid), end)
    ensures EndsWith(AddSeg(segs, now, end, pid), pid)
  {
    var n := |segs|;
    var out := AddSeg(segs, now, end, pid);
    forall i | 1 <= i < |out| ensures Follows(out[i - 1], out[i]) {
      if i < n {
        assert Follows(segs[i - 1], segs[i]);
      }
    }
  }

  lemma AddSegTotal(segs: seq<Segment>, now: int, end: int, pid: int, q: int)
    requires now < end
    ensures Total(AddSeg(segs, now, end, pid), q) == Total(segs, q) + if q == pid then end - now else 0
  {
    var n := |segs|;
    var out := AddSeg(segs, now, end, pid);
    assert out[..|out| - 1] == if |out| == n then segs[..n - 1] else segs;
  }

  lemma AddSegExact(segs: seq<Segment>, now: int, end: int, pid: int)
    requires SwitchesExact(segs)
    requires pid == SWITCH ==> !EndsWith(segs, SWITCH) && end == now + SWITCH_COST
    ensures SwitchesExact(AddSeg(segs, now, end, pid))
  {}

  /** Number of context switches on the chart. */
  function Switches(segs: seq<Segment>): nat {
    if segs == [] then 0
    else Switches(segs[..|segs| - 1]) + if segs[|segs| - 1].pid == SWITCH then 1 else 0
  }

  lemma AddSegSwitches(segs: seq<Segment>, now: int, end: int, pid: int)
    ensures Switches(AddSeg(segs, now, end, pid)) <= Switches(segs) + if pid == SWITCH then 1 else 0
    ensures pid != SWITCH ==> Switches(AddSeg(segs, now, end, pid)) == Switches(segs)
  {
    var out := AddSeg(segs, now, end, pid);
    if out != segs {
      assert out[..|out| - 1] == if |out| == |segs| then segs[..|segs| - 1] else segs;
    }
  }

  lemma {:induction false} SwitchTotal(segs: seq<Segment>)
    requires SwitchesExact(segs)
    ensures Total(segs, SWITCH) == SWITCH_COST * Switches(segs)
  {
    if segs != [] {
      SwitchTotal(segs[..|segs| - 1]);
    }
  }

  // ---------------------------------------------------------------- accounting

  /** Ticks of CPU time the processes have received. */
  function Work(ps: seq<Proc>): int {
    if ps == [] then 0
    else Work(ps[..|ps| - 1]) + ps[|ps| - 1].Demand() - ps[|ps| - 1].remain
  }

  lemma {:induction false} WorkUpdate(ps: seq<Proc>, k: nat, p: Proc)
    requires k < |ps| && p.burst == ps[k].burst
    ensures Work(ps[k := p]) == Work(ps) + ps[k].remain - p.remain
  {
    var n := |ps| - 1;
    if k < n {
      WorkUpdate(ps[..n], k, p);
      assert ps[k := p][..n] == ps[..n][k := p];
    } else {
      assert ps[k := p][..n] == ps[..n];
    }
  }

  /** Each process has been charged exactly what it no longer needs. */
  ghost predicate Charged(ps: seq<Proc>, segs: seq<Segment>) {
    forall i :: 0 <= i < |ps| ==> Total(segs, ps[i].pid) == ps[i].Demand() - ps[i].remain
  }

  /** The Gantt chart accounts for every tick from 0 to now. */
  ghost predicate Accounted(c: Cpu) {
    && ValidTable(c.ps)
    && Partition(c.segs, c.now) && SwitchesExact(c.segs)
    && Charged(c.ps, c.segs)
    && c.now == Work(c.ps) + Total(c.segs, IDLE) + Total(c.segs, SWITCH)
  }

  // ---------------------------------------------------------------- what the simulators are made of

  /** Let the CPU idle until `until`. */
  function IdleUntil(c: Cpu, until: int): Cpu {
    c.(now := until, segs := AddSeg(c.segs, c.now, until, IDLE))
  }

  /** Charge a context switch when the CPU goes from one process to a different one. */
  function SwitchTo(c: Cpu, pid: int): Cpu {
    if c.prev != pid && c.prev != IDLE
    then c.(now := c.now + SWITCH_COST, segs := AddSeg(c.segs, c.now, c.now + SWITCH_COST, SWITCH))
    else c
  }

  function NoteStart(c: Cpu, k: nat): Cpu
    requires k < |c.ps|
  {
    if c.ps[k].started then c
    else c.(ps := c.ps[k := c.ps[k].(firstStart := c.now, started := true)])
  }

  /** Run process k for `ran` ticks; it is done when nothing remains. */
  function Execute(c: Cpu, k: nat, ran: int): Cpu
    requires k < |c.ps|
  {
    var p := c.ps[k];
    var end := c.now + ran;
    var p' := if p.remain - ran <= 0
              then p.(remain := 0, done := true, finish := end)
              else p.(remain := p.remain - ran);
    c.(now := end, ps := c.ps[k := p'], segs := AddSeg(c.segs, c.now, end, p.pid))
  }

  /** Idle and switch time is charged to no process. */
  lemma OverheadAccounted(c: Cpu, end: int, pid: int)
    requires Accounted(c) && c.now < end && (pid == IDLE || pid == SWITCH)
    requires pid == SWITCH ==> !EndsWith(c.segs, SWITCH) && end == c.now + SWITCH_COST
    ensures Accounted(c.(now := end, segs := AddSeg(c.segs, c.now, end, pid)))
  {
    hide AddSeg, Total, Partition, SwitchesExact;
    AddSegPartition(c.segs, c.now, end, pid);
    AddSegExact(c.segs, c.now, end, pid);
    AddSegTotal(c.segs, c.now, end, pid, IDLE);
    AddSegTotal(c.segs, c.now, end, pid, SWITCH);
    forall i | 0 <= i < |c.ps|
      ensures Total(AddSeg(c.segs, c.now, end, pid), c.ps[i].pid) == Total(c.segs, c.ps[i].pid)
    {
      assert ValidProc(c.ps[i]);
      AddSegTotal(c.segs, c.now, end, pid, c.ps[i].pid);
    }
  }

  lemma IdleAccounted(c: Cpu, until: int)
    requires Accounted(c) && c.now < until
    ensures Accounted(IdleUntil(c, until)) && EndsWith(IdleUntil(c, until).segs, IDLE)
  {
    OverheadAccounted(c, until, IDLE);
    AddSegPartition(c.segs, c.now, until, IDLE);
  }

  lemma SwitchAccounted(c: Cpu, pid: int)
    requires Accounted(c) && !EndsWith(c.segs, SWITCH)
    ensures Accounted(SwitchTo(c, pid))
  {
    hide AddSeg, Accounted;
    if SwitchTo(c, pid) != c {
      OverheadAccounted(c, c.now + SWITCH_COST, SWITCH);
    }
  }

  lemma StartAccounted(c: Cpu, k: nat)
    requires k < |c.ps| && Accounted(c)
    ensures Accounted(NoteStart(c, k))
  {
    var p := c.ps[k].(firstStart := c.now, started := true);
    assert ValidProc(c.ps[k]);
    WorkUpdate(c.ps, k, p);
  }

  lemma ExecuteAccounted(c: Cpu, k: nat, ran: int)
    requires k < |c.ps| && Accounted(c)
    requires 0 < ran <= c.ps[k].remain
    ensures Accounted(Execute(c, k, ran))
    ensures EndsWith(Execute(c, k, ran).segs, c.ps[k].pid)
  {
    hide AddSeg, Total, Partition, SwitchesExact, Work;
    var d := Execute(c, k, ran);
    var pid := c.ps[k].pid;
    assert ValidProc(c.ps[k]);
    AddSegPartition(c.segs, c.now, d.now, pid);
    AddSegExact(c.segs, c.now, d.now, pid);
    AddSegTotal(c.segs, c.now, d.now, pid, IDLE);
    AddSegTotal(c.segs, c.now, d.now, pid, SWITCH);
    WorkUpdate(c.ps, k, d.ps[k]);
    forall i | 0 <= i < |c.ps|
      ensures Total(d.segs, d.ps[i].pid) == d.ps[i].Demand() - d.ps[i].remain
      ensures ValidProc(d.ps[i])
    {
      assert ValidProc(c.ps[i]);
      AddSegTotal(c.segs, c.now, d.now, pid, c.ps[i].pid);
    }
  }

  lemma {:induction false} FreshWork(ps: seq<Proc>)
    requires forall i :: 0 <= i < |ps| ==> Fresh(ps[i])
    ensures Work(ps) == 0
  {
    if ps != [] {
      FreshWork(ps[..|ps| - 1]);
    }
  }

  function Boot(ps: seq<Proc>): Cpu {
    Cpu(0, IDLE, ps, [])
  }

  lemma BootAccounted(ps: seq<Proc>)
    requires FreshTable(ps)
    ensures Accounted(Boot(ps))
  {
    FreshWork(ps);
  }

  function SwitchTicks(c: Cpu, k: nat): int
    requires k < |c.ps|
  {
    if c.prev != c.ps[k].pid && c.prev != IDLE then SWITCH_COST else 0
  }

  /** Between iterations the chart ends with a process, if with anything. */
  ghost predicate AtLoop(c: Cpu) {
    Accounted(c) && (c.segs == [] || 0 <= c.segs[|c.segs| - 1].pid)
  }

  lemma RunsFully(c: Cpu, k: nat)
    requires k < |c.ps| && !c.ps[k].done && Accounted(c)
    ensures 0 < c.ps[k].remain && 0 <= c.ps[k].pid
  {
    assert ValidProc(c.ps[k]);
  }

  /** `prev` plays no part in the accounts. */
  lemma PrevAside(c: Cpu, prev: int)
    requires Accounted(c)
    ensures Accounted(c.(prev := prev))
  {}

  lemma TableValid(c: Cpu)
    requires Accounted(c)
    ensures ValidTable(c.ps)
  {}
}

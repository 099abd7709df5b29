/** Shortest remaining time first: run the best process until it ends or somebody arrives. */
module SchedSrtf {
  import opened SchedModel
  import opened SchedPick
  import opened SchedNonPreemptive

  /** The CPU given to process k: a switch if it changes hands, and the first start. */
  function Resume(c: Cpu, k: nat): Cpu
    requires k < |c.ps|
  {
    var s := SwitchTo(c, c.ps[k].pid);
    if c.prev != c.ps[k].pid then NoteStart(s, k) else s
  }

  /** How long process k may run: until it ends or the next process arrives. */
  function Slice(c: Cpu, k: nat): int
    requires k < |c.ps|
  {
    var nx := NextArrival(c.ps, c.now, |c.ps|);
    if nx < 0 || c.ps[k].remain <= c.ps[nx].Arrives() - c.now then c.ps[k].remain
    else c.ps[nx].Arrives() - c.now
  }

  function RunSlice(c: Cpu, k: nat): Cpu
    requires k < |c.ps|
  {
    var e := Execute(c, k, Slice(c, k));
    e.(prev := if e.ps[k].done then IDLE else c.ps[k].pid)
  }

  /** One iteration of the simulation loop. */
  function Step(c: Cpu): Cpu
    requires ValidTable(c.ps) && !AllDone(c.ps)
  {
    var k := Chosen(Srtf, c);
    RunSlice(Resume(WaitForArrival(c), k), k)
  }

  /** Unfinished processes and outstanding arrivals: what the loop consumes. */
  function Measure(c: Cpu): nat {
    Unfinished(c.ps) + Awaited(c.ps, c.now)
  }

  // ---------------------------------------------------------------- one iteration

  lemma ResumeShape(c: Cpu, k: nat)
    requires k < |c.ps| && ValidTable(c.ps)
    ensures var r := Resume(c, k);
            && ValidTable(r.ps) && |r.ps| == |c.ps|
            && (forall i :: 0 <= i < |c.ps| && i != k ==> r.ps[i] == c.ps[i])
            && SameJob(r.ps[k], c.ps[k]) && r.ps[k].remain == c.ps[k].remain && r.ps[k].done == c.ps[k].done
            && r.now == c.now + SwitchTicks(c, k)
  {
    assert ValidProc(c.ps[k]);
    forall i | 0 <= i < |c.ps| ensures ValidProc(Resume(c, k).ps[i]) {
      assert ValidProc(c.ps[i]);
    }
  }

  lemma SliceBounds(c: Cpu, k: nat)
    requires k < |c.ps| && ValidTable(c.ps) && !c.ps[k].done
    ensures 0 < Slice(c, k) <= c.ps[k].remain
    ensures Slice(c, k) < c.ps[k].remain ==>
              exists i :: 0 <= i < |c.ps| && Pending(c.ps[i], c.now) && c.ps[i].Arrives() == c.now + Slice(c, k)
    ensures forall i :: 0 <= i < |c.ps| && Pending(c.ps[i], c.now) ==> c.now + Slice(c, k) <= c.ps[i].Arrives()
  {
    assert ValidProc(c.ps[k]);
    NextArrivalPending(c.ps, c.now, |c.ps|);
    forall i | 0 <= i < |c.ps| && Pending(c.ps[i], c.now)
      ensures c.now + Slice(c, k) <= c.ps[i].Arrives()
    {
      NextArrivalFirst(c.ps, c.now, |c.ps|, i);
    }
  }

  lemma SliceShape(c: Cpu, k: nat)
    requires k < |c.ps| && ValidTable(c.ps) && !c.ps[k].done
    ensures var d := RunSlice(c, k);
            && ValidTable(d.ps) && d.now == c.now + Slice(c, k)
            && d.ps == c.ps[k := d.ps[k]] && SameJob(d.ps[k], c.ps[k])
            && d.ps[k].remain == c.ps[k].remain - Slice(c, k)
            && d.prev == if d.ps[k].done then IDLE else c.ps[k].pid
  {
    hide Slice;
    assert ValidProc(c.ps[k]);
    SliceBounds(c, k);
    var d := RunSlice(c, k);
    forall i | 0 <= i < |c.ps| ensures ValidProc(d.ps[i]) {
      assert ValidProc(c.ps[i]);
    }
  }

  /** A slice ends a process or brings an arrival. */
  lemma SliceConsumes(c: Cpu, k: nat)
    requires k < |c.ps| && ValidTable(c.ps) && Ready(c.ps[k], c.now)
    ensures ValidTable(RunSlice(c, k).ps)
    ensures Measure(RunSlice(c, k)) < Measure(c)
    ensures Awaited(RunSlice(c, k).ps, RunSlice(c, k).now) <= Awaited(c.ps, c.now)
    ensures RunSlice(c, k).prev != IDLE ==> Awaited(RunSlice(c, k).ps, RunSlice(c, k).now) < Awaited(c.ps, c.now)
  {
    hide Slice, RunSlice;
    SliceShape(c, k);
    SliceBounds(c, k);
    var d := RunSlice(c, k);
    assert ValidProc(c.ps[k]) && ValidProc(d.ps[k]);
    UnfinishedUpdate(c.ps, k, d.ps[k]);
    AwaitedUpdate(c.ps, c.now, k, d.ps[k]);
    AwaitedLater(c.ps, c.now, d.now);
    AwaitedUpdate(c.ps, d.now, k, d.ps[k]);
  }

  lemma ResumeConsumes(c: Cpu, k: nat)
    requires k < |c.ps| && ValidTable(c.ps) && Ready(c.ps[k], c.now)
    ensures var r := Resume(c, k);
            Awaited(r.ps, r.now) <= Awaited(c.ps, c.now) && Unfinished(r.ps) == Unfinished(c.ps)
  {
    hide Resume;
    ResumeShape(c, k);
    var r := Resume(c, k);
    assert r.ps == c.ps[k := r.ps[k]];
    UnfinishedUpdate(c.ps, k, r.ps[k]);
    AwaitedUpdate(c.ps, c.now, k, r.ps[k]);
    AwaitedLater(r.ps, c.now, r.now);
  }

  lemma WaitConsumes(c: Cpu)
    requires !AllDone(c.ps)
    ensures Awaited(c.ps, WaitForArrival(c).now) + (if AnyReady(c.ps, c.now) then 0 else 1) <= Awaited(c.ps, c.now)
  {
    if !AnyReady(c.ps, c.now) {
      NextArrivalExists(c.ps, c.now);
      var nx := NextArrival(c.ps, c.now, |c.ps|);
      AwaitedLater(c.ps, c.now, c.ps[nx].Arrives());
    }
  }

  lemma StepConsumes(c: Cpu)
    requires ValidTable(c.ps) && !AllDone(c.ps)
    ensures ValidTable(Step(c).ps) && |Step(c).ps| == |c.ps|
    ensures Measure(Step(c)) + (if AnyReady(c.ps, c.now) then 1 else 2) <= Measure(c)
    ensures Awaited(Step(c).ps, Step(c).now) + (if AnyReady(c.ps, c.now) then 0 else 1)
            + (if Step(c).prev != IDLE then 1 else 0) <= Awaited(c.ps, c.now)
  {
    hide Chosen, WaitForArrival, Resume, RunSlice, AnyReady;
    var w, k := WaitForArrival(c), Chosen(Srtf, c);
    var r := Resume(w, k);
    WaitConsumes(c);
    ChosenReady(Srtf, c);
    ResumeShape(w, k);
    ResumeConsumes(w, k);
    SwitchNotNegative(w, k);
    SliceConsumes(r, k);
    SliceShape(r, k);
  }

  lemma SwitchNotNegative(c: Cpu, k: nat)
    requires k < |c.ps|
    ensures 0 <= SwitchTicks(c, k) <= SWITCH_COST
  {}

  // ---------------------------------------------------------------- runs

  function Run(c: Cpu): Cpu
    requires ValidTable(c.ps)
    decreases Measure(c)
  {
    if AllDone(c.ps) then c
    else
      StepConsumes(c);
      Run(Step(c))
  }

  function Iterations(c: Cpu): nat
    requires ValidTable(c.ps)
    decreases Measure(c)
  {
    if AllDone(c.ps) then 0
    else
      StepConsumes(c);
      1 + Iterations(Step(c))
  }

  /** Every iteration uses up a completion or an arrival; an idle one uses up two. */
  lemma {:induction false} IterationsBounded(c: Cpu)
    requires ValidTable(c.ps)
    ensures Iterations(c) <= Measure(c)
    ensures !AllDone(c.ps) && !AnyReady(c.ps, c.now) ==> Iterations(c) < Measure(c)
    decreases Measure(c)
  {
    hide Step, AnyReady;
    if !AllDone(c.ps) {
      StepConsumes(c);
      IterationsBounded(Step(c));
    }
  }

  lemma {:induction false} AwaitedAll(ps: seq<Proc>, now: int)
    ensures Awaited(ps, now) == |ps| ==> !AnyReady(ps, now)
  {
    if ps != [] {
      var n := |ps| - 1;
      AwaitedAll(ps[..n], now);
      AwaitedLater(ps[..n], now, now);
      if Awaited(ps, now) == |ps| {
        forall i | 0 <= i < |ps| ensures !Ready(ps[i], now) {
          if i < n {
            assert ps[..n][i] == ps[i];
          }
        }
      }
    }
  }

  /** At most 2N - 1 iterations. */
  lemma SrtfIterations(ps: seq<Proc>)
    requires FreshTable(ps) && ps != []
    ensures Iterations(Boot(ps)) <= 2 * |ps| - 1
  {
    hide Step, AnyReady, Iterations;
    var c := Boot(ps);
    IterationsBounded(c);
    UnfinishedBound(ps);
    AwaitedLater(ps, 0, 0);
    AwaitedAll(ps, 0);
    assert Fresh(ps[0]);
  }

  // ---------------------------------------------------------------- accounting

  lemma ResumeAccounted(c: Cpu, k: nat)
    requires k < |c.ps| && Accounted(c) && !EndsWith(c.segs, SWITCH)
    ensures Accounted(Resume(c, k))
  {
    hide Accounted;
    SwitchAccounted(c, c.ps[k].pid);
    StartAccounted(SwitchTo(c, c.ps[k].pid), k);
  }

  lemma SliceAccounted(c: Cpu, k: nat)
    requires k < |c.ps| && Accounted(c) && !c.ps[k].done
    ensures AtLoop(RunSlice(c, k))
  {
    hide Accounted, Slice, EndsWith;
    TableValid(c);
    RunsFully(c, k);
    SliceBounds(c, k);
    var e := Execute(c, k, Slice(c, k));
    ExecuteAccounted(c, k, Slice(c, k));
    PrevAside(e, RunSlice(c, k).prev);
    LastPid(e.segs, c.ps[k].pid);
  }

  lemma LastPid(segs: seq<Segment>, pid: int)
    requires EndsWith(segs, pid)
    ensures segs != [] && segs[|segs| - 1].pid == pid
  {}

  lemma StepAccounted(c: Cpu)
    requires AtLoop(c) && !AllDone(c.ps)
    ensures ValidTable(c.ps) && AtLoop(Step(c))
  {
    hide Chosen, WaitForArrival, Resume, RunSlice, Accounted;
    TableValid(c);
    var w, k := WaitForArrival(c), Chosen(Srtf, c);
    WaitAccounted(c);
    ChosenReady(Srtf, c);
    ResumeAccounted(w, k);
    ResumeShape(w, k);
    SliceAccounted(Resume(w, k), k);
  }

  /** The run ends with every process served exactly its burst and every tick on the chart. */
  lemma {:induction false} RunAccounted(c: Cpu)
    requires AtLoop(c)
    ensures ValidTable(c.ps)
    ensures AtLoop(Run(c)) && AllDone(Run(c).ps)
    decreases Measure(c)
  {
    hide Accounted, Step;
    TableValid(c);
    if !AllDone(c.ps) {
      StepConsumes(c);
      StepAccounted(c);
      RunAccounted(Step(c));
    }
  }

  // ---------------------------------------------------------------- context switches

  /** Switches so far, those still possible, and the one pending for the running process. */
  function SwitchBudget(c: Cpu): nat {
    Switches(c.segs) + Awaited(c.ps, c.now) + if c.prev != IDLE then 1 else 0
  }

  lemma StepSwitches(c: Cpu)
    requires ValidTable(c.ps) && !AllDone(c.ps)
    ensures Switches(Step(c).segs) <= Switches(c.segs) + if c.prev != IDLE && c.prev != c.ps[Chosen(Srtf, c)].pid then 1 else 0
  {
    hide AddSeg, Switches, Chosen, Slice;
    var w, k := WaitForArrival(c), Chosen(Srtf, c);
    ChosenReady(Srtf, c);
    assert ValidProc(c.ps[k]);
    if !AnyReady(c.ps, c.now) {
      AddSegSwitches(c.segs, c.now, w.now, IDLE);
    }
    AddSegSwitches(w.segs, w.now, w.now + SWITCH_COST, SWITCH);
    var r := Resume(w, k);
    AddSegSwitches(r.segs, r.now, r.now + Slice(r, k), c.ps[k].pid);
  }

  lemma StepBudget(c: Cpu)
    requires ValidTable(c.ps) && !AllDone(c.ps)
    ensures SwitchBudget(Step(c)) + (if AnyReady(c.ps, c.now) then 0 else 1) <= SwitchBudget(c)
  {
    hide Step, Chosen, Switches, AnyReady;
    StepConsumes(c);
    StepSwitches(c);
  }

  lemma {:induction false} RunBudget(c: Cpu)
    requires ValidTable(c.ps)
    ensures Switches(Run(c).segs) <= SwitchBudget(c)
    ensures !AllDone(c.ps) && !AnyReady(c.ps, c.now) ==> Switches(Run(c).segs) < SwitchBudget(c)
    decreases Measure(c)
  {
    hide Step, AnyReady, Switches;
    if !AllDone(c.ps) {
      StepConsumes(c);
      StepBudget(c);
      RunBudget(Step(c));
    }
  }

  /** At most N - 1 context switches. */
  lemma SrtfSwitches(ps: seq<Proc>)
    requires FreshTable(ps) && ps != []
    ensures Switches(Run(Boot(ps)).segs) <= |ps| - 1
  {
    hide Step, AnyReady, Run;
    RunBudget(Boot(ps));
    AwaitedLater(ps, 0, 0);
    AwaitedAll(ps, 0);
    assert Fresh(ps[0]);
  }

  /** A running process loses the CPU only to one that arrived after it was last chosen. */
  lemma PreemptedByNewcomer(c: Cpu)
    requires ValidTable(c.ps) && !AllDone(c.ps)
    requires Step(c).prev != IDLE
    ensures ValidTable(Step(c).ps) && !AllDone(Step(c).ps)
    ensures var k, k' := Chosen(Srtf, c), Chosen(Srtf, Step(c));
            k' != k ==> c.ps[k'].Arrives() > WaitForArrival(c).now
  {
    hide Chosen, WaitForArrival, Resume, RunSlice;
    var w, k := WaitForArrival(c), Chosen(Srtf, c);
    var r := Resume(w, k);
    var d := Step(c);
    StepConsumes(c);
    ChosenReady(Srtf, c);
    ResumeShape(w, k);
    SliceShape(r, k);
    SliceBounds(r, k);
    SwitchNotNegative(w, k);
    assert ValidProc(d.ps[k]) && !d.ps[k].done;
    StaysReady(c, d, w.now, k);
  }

  /**
   Every iteration: once somebody is there, exactly one process runs, and no
   process that has arrived by then has less to do.
   */
  lemma RunsShortest(c: Cpu) returns (k: nat)
    requires ValidTable(c.ps) && !AllDone(c.ps)
    ensures k < |c.ps| == |Step(c).ps| && Step(c).ps[k].remain < c.ps[k].remain
    ensures forall i :: 0 <= i < |c.ps| && i != k ==> Step(c).ps[i] == c.ps[i]
    ensures forall i :: 0 <= i < |c.ps| && !c.ps[i].done && c.ps[i].Arrives() <= WaitForArrival(c).now
              ==> Leads(c.ps[k].remain, c.ps[k], c.ps[i].remain, c.ps[i])
  {
    hide WaitForArrival, Resume, RunSlice, Pick;
    var w := WaitForArrival(c);
    k := Chosen(Srtf, c);
    PickExists(Srtf, w.ps, w.now);
    ResumeShape(w, k);
    SliceShape(Resume(w, k), k);
    SliceBounds(Resume(w, k), k);
    forall i | 0 <= i < |c.ps| && !c.ps[i].done && c.ps[i].Arrives() <= w.now
      ensures Leads(c.ps[k].remain, c.ps[k], c.ps[i].remain, c.ps[i])
    {
      SrtfChoice(c.ps, w.now, i);
    }
  }

  lemma StaysReady(c: Cpu, d: Cpu, decided: int, k: nat)
    requires ValidTable(d.ps) && k < |c.ps| == |d.ps| && decided < d.now
    requires Ready(c.ps[k], decided) && !d.ps[k].done
    requires SameJob(d.ps[k], c.ps[k]) && d.ps[k].remain <= c.ps[k].remain
    requires forall i :: 0 <= i < |c.ps| && i != k ==> d.ps[i] == c.ps[i]
    requires forall i :: 0 <= i < |c.ps| && Ready(c.ps[i], decided) ==> i == k || Better(Srtf, c.ps[k], c.ps[i])
    ensures !AllDone(d.ps)
    ensures var k' := Chosen(Srtf, d); k' != k ==> c.ps[k'].Arrives() > decided
  {
    hide Chosen;
    assert Ready(d.ps[k], d.now);
    assert AnyReady(d.ps, d.now);
    ChosenReady(Srtf, d);
  }
}

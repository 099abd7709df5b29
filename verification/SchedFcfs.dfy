/** First come, first served: the scan over the sorted table amounts to a recurrence. */
module SchedFcfs {
  import opened SchedModel
  import opened SchedPick
  import opened SchedNonPreemptive
  import opened SchedTimeline

  /** When process i is given the CPU: after its predecessor and its own arrival, plus a switch. */
  function StartTime(ps: seq<Proc>, i: nat): int
    requires i < |ps|
    decreases i, 0
  {
    if i == 0 then ps[0].Arrives()
    else Max(FinishTime(ps, i - 1), ps[i].Arrives()) + SWITCH_COST
  }

  function FinishTime(ps: seq<Proc>, i: nat): int
    requires i < |ps|
    decreases i, 1
  {
    StartTime(ps, i) + ps[i].Demand()
  }

  /** The first i processes are finished as the recurrence says; the others are untouched. */
  ghost predicate Progress(ps: seq<Proc>, c: Cpu, i: nat) {
    && i <= |ps| == |c.ps|
    && (forall j :: 0 <= j < |ps| ==> SameJob(ps[j], c.ps[j]))
    && (forall j :: 0 <= j < i ==> c.ps[j].done && c.ps[j].firstStart == StartTime(ps, j) && c.ps[j].finish == FinishTime(ps, j))
    && (forall j :: i <= j < |ps| ==> Fresh(c.ps[j]))
    && (if i == 0 then c.now == 0 && c.prev == IDLE else c.now == FinishTime(ps, i - 1) && c.prev == ps[i - 1].pid)
  }

  /** FCFS serves the table in order, idling until the arrival when it must. */
  lemma ServesInOrder(ps: seq<Proc>, c: Cpu, i: nat)
    requires ValidTable(c.ps) && Sorted(c.ps) && Progress(ps, c, i) && i < |ps|
    ensures !AllDone(c.ps) && Chosen(Fcfs, c) == i
    ensures WaitForArrival(c).now == Max(c.now, ps[i].Arrives())
  {
    assert Fresh(c.ps[i]) && SameJob(ps[i], c.ps[i]);
    forall j | i < j < |ps| ensures Before(c.ps[i], c.ps[j]) && !c.ps[j].done {
      assert Fresh(c.ps[j]);
    }
    WaitsForHead(c, i);
    assert Ready(c.ps[i], WaitForArrival(c).now);
    ChosenReady(Fcfs, c);
  }

  /** The switch is due exactly when some process ran before. */
  lemma StartsOnTime(ps: seq<Proc>, c: Cpu, i: nat)
    requires ValidTable(c.ps) && Sorted(c.ps) && Progress(ps, c, i) && i < |ps| && !AllDone(c.ps)
    ensures WaitForArrival(c).now + SwitchTicks(WaitForArrival(c), i) == StartTime(ps, i)
  {
    hide WaitForArrival;
    ServesInOrder(ps, c, i);
    assert SameJob(ps[i], c.ps[i]) && ValidProc(c.ps[i]);
    if i > 0 {
      assert SameJob(ps[i - 1], c.ps[i - 1]) && ValidProc(c.ps[i - 1]);
      assert c.ps[i - 1].pid != c.ps[i].pid;
    }
  }

  lemma StepProgress(ps: seq<Proc>, c: Cpu, i: nat)
    requires ValidTable(c.ps) && Sorted(c.ps) && Progress(ps, c, i) && i < |ps| && !AllDone(c.ps)
    ensures Progress(ps, Step(Fcfs, c), i + 1) && Sorted(Step(Fcfs, c).ps)
  {
    hide Dispatch, Chosen, WaitForArrival, StartTime;
    ServesInOrder(ps, c, i);
    StartsOnTime(ps, c, i);
    var w := WaitForArrival(c);
    assert Fresh(c.ps[i]) && SameJob(ps[i], c.ps[i]);
    DispatchShape(w, i);
    var d := Step(Fcfs, c);
    assert d.ps[i].firstStart == StartTime(ps, i) && d.ps[i].finish == FinishTime(ps, i) == d.now;
    DispatchServes(w, i);
    ServedSorted(c.ps, i, d.ps);
  }

  lemma {:induction false} RunProgress(ps: seq<Proc>, c: Cpu, i: nat)
    requires ValidTable(c.ps) && Sorted(c.ps) && Progress(ps, c, i)
    ensures Progress(ps, Run(Fcfs, c), |ps|)
    decreases |ps| - i
  {
    hide Step, StartTime, FinishTime;
    if i < |ps| {
      assert Fresh(c.ps[i]);
      StepValid(Fcfs, c);
      StepProgress(ps, c, i);
      RunProgress(ps, Step(Fcfs, c), i + 1);
    }
  }

  /** Start and completion times of the simulation are those of the recurrence. */
  lemma FcfsRecurrence(ps: seq<Proc>, i: nat)
    requires FreshTable(ps) && Sorted(ps) && i < |ps|
    ensures var p := Run(Fcfs, Boot(ps)).ps[i];
            p.firstStart == StartTime(ps, i) && p.finish == FinishTime(ps, i)
  {
    hide StartTime, FinishTime;
    RunProgress(ps, Boot(ps), 0);
  }
}

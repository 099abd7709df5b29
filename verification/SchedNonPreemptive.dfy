/** FCFS and SJF: the chosen process runs to completion. */
module SchedNonPreemptive {
  import opened SchedModel
  import opened SchedPick

  /** Switch to process k and run it to its end. */
  function Dispatch(c: Cpu, k: nat): Cpu
    requires k < |c.ps|
  {
    var pid := c.ps[k].pid;
    var d := NoteStart(SwitchTo(c, pid), k);
    Execute(d, k, d.ps[k].remain).(prev := pid)
  }

  /** The process the rule chooses, once one is ready. */
  function Chosen(rule: Rule, c: Cpu): (k: nat)
    requires ValidTable(c.ps) && !AllDone(c.ps)
    ensures k < |c.ps|
  {
    var w := WaitForArrival(c);
    PickExists(rule, w.ps, w.now);
    Pick(rule, w.ps, w.now, |w.ps|)
  }

  /** One iteration of the simulation loop. */
  function Step(rule: Rule, c: Cpu): Cpu
    requires ValidTable(c.ps) && !AllDone(c.ps)
  {
    Dispatch(WaitForArrival(c), Chosen(rule, c))
  }

  /** What dispatching leaves in the table. */
  function Finished(p: Proc, start: int, end: int): Proc {
    p.(firstStart := if p.started then p.firstStart else start, started := true, remain := 0, done := true, finish := end)
  }

  lemma DispatchShape(c: Cpu, k: nat)
    requires k < |c.ps|
    ensures var d, start := Dispatch(c, k), c.now + SwitchTicks(c, k);
            && d.prev == c.ps[k].pid
            && d.now == start + c.ps[k].remain
            && d.ps == c.ps[k := Finished(c.ps[k], start, d.now)]
  {}

  lemma DispatchValid(c: Cpu, k: nat)
    requires k < |c.ps| && ValidTable(c.ps) && !c.ps[k].done
    ensures ValidTable(Dispatch(c, k).ps)
    ensures Unfinished(Dispatch(c, k).ps) == Unfinished(c.ps) - 1
  {
    hide Dispatch;
    DispatchShape(c, k);
    var d := Dispatch(c, k);
    UnfinishedUpdate(c.ps, k, d.ps[k]);
    forall i | 0 <= i < |d.ps| ensures ValidProc(d.ps[i]) {
      assert ValidProc(c.ps[i]);
    }
  }

  lemma ChosenReady(rule: Rule, c: Cpu)
    requires ValidTable(c.ps) && !AllDone(c.ps)
    ensures Ready(c.ps[Chosen(rule, c)], WaitForArrival(c).now)
    ensures forall i :: 0 <= i < |c.ps| && Ready(c.ps[i], WaitForArrival(c).now)
              ==> i == Chosen(rule, c) || Better(rule, c.ps[Chosen(rule, c)], c.ps[i])
  {
    var w := WaitForArrival(c);
    PickExists(rule, w.ps, w.now);
    forall i | 0 <= i < |c.ps| && Ready(c.ps[i], w.now)
      ensures i == Chosen(rule, c) || Better(rule, c.ps[Chosen(rule, c)], c.ps[i])
    {
      PickBest(rule, w.ps, w.now, |w.ps|, i);
    }
  }

  /** Every iteration of SJF runs a shortest ready process to its end. */
  lemma RunsShortestJob(c: Cpu) returns (k: nat)
    requires ValidTable(c.ps) && !AllDone(c.ps)
    ensures k < |c.ps| == |Step(Sjf, c).ps| && !c.ps[k].done && Step(Sjf, c).ps[k].done
    ensures forall i :: 0 <= i < |c.ps| && i != k ==> Step(Sjf, c).ps[i] == c.ps[i]
    ensures forall i :: 0 <= i < |c.ps| && !c.ps[i].done && c.ps[i].Arrives() <= WaitForArrival(c).now
              ==> Leads(c.ps[k].burst, c.ps[k], c.ps[i].burst, c.ps[i])
  {
    hide WaitForArrival, Dispatch, Pick;
    var w := WaitForArrival(c);
    k := Chosen(Sjf, c);
    PickExists(Sjf, w.ps, w.now);
    DispatchShape(w, k);
    forall i | 0 <= i < |c.ps| && !c.ps[i].done && c.ps[i].Arrives() <= w.now
      ensures Leads(c.ps[k].burst, c.ps[k], c.ps[i].burst, c.ps[i])
    {
      SjfChoice(c.ps, w.now, i);
    }
  }

  lemma StepValid(rule: Rule, c: Cpu)
    requires ValidTable(c.ps) && !AllDone(c.ps)
    ensures ValidTable(Step(rule, c).ps)
    ensures Unfinished(Step(rule, c).ps) == Unfinished(c.ps) - 1
  {
    hide Chosen, Dispatch;
    ChosenReady(rule, c);
    DispatchValid(WaitForArrival(c), Chosen(rule, c));
  }

  /** The whole simulation. */
  function Run(rule: Rule, c: Cpu): (r: Cpu)
    requires ValidTable(c.ps)
    ensures |r.ps| == |c.ps|
    decreases Unfinished(c.ps)
  {
    if AllDone(c.ps) then c
    else
      StepValid(rule, c);
      Run(rule, Step(rule, c))
  }

  // ---------------------------------------------------------------- accounting

  lemma DispatchAccounted(c: Cpu, k: nat)
    requires k < |c.ps| && !c.ps[k].done
    requires Accounted(c) && !EndsWith(c.segs, SWITCH)
    ensures AtLoop(Dispatch(c, k))
  {
    hide Accounted;
    var s := SwitchTo(c, c.ps[k].pid);
    SwitchAccounted(c, c.ps[k].pid);
    StartAccounted(s, k);
    RunsFully(c, k);
    ExecuteAccounted(NoteStart(s, k), k, c.ps[k].remain);
    PrevAside(Execute(NoteStart(s, k), k, c.ps[k].remain), c.ps[k].pid);
  }

  lemma StepAccounted(rule: Rule, c: Cpu)
    requires AtLoop(c) && !AllDone(c.ps)
    ensures AtLoop(Step(rule, c))
  {
    hide Chosen, Dispatch, Accounted;
    TableValid(c);
    WaitAccounted(c);
    ChosenReady(rule, c);
    DispatchAccounted(WaitForArrival(c), Chosen(rule, c));
  }

  /** At the end every process has received its burst, and the chart explains every tick. */
  lemma {:induction false} RunAccounted(rule: Rule, c: Cpu)
    requires AtLoop(c)
    ensures ValidTable(c.ps)
    ensures AtLoop(Run(rule, c)) && AllDone(Run(rule, c).ps)
    decreases Unfinished(c.ps)
  {
    hide Accounted, Step;
    TableValid(c);
    if !AllDone(c.ps) {
      StepValid(rule, c);
      StepAccounted(rule, c);
      RunAccounted(rule, Step(rule, c));
    }
  }
}

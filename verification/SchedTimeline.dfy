/**
 The order in which a non-preemptive rule serves the processes changes neither
 when the CPU is idle nor when the last process ends.  The reference point is a
 timeline that never looks at a rule: processes in table order, each after the
 previous one or its own arrival.
 */
module SchedTimeline {
  import opened SchedModel
  import opened SchedPick
  import opened SchedNonPreemptive

  /** Table order of main's qsort: by arrival, ties by pid. */
  predicate Before(a: Proc, b: Proc) {
    a.arrival < b.arrival || (a.arrival == b.arrival && a.pid < b.pid)
  }

  ghost predicate Sorted(ps: seq<Proc>) {
    forall i, j :: 0 <= i < j < |ps| ==> Before(ps[i], ps[j])
  }

  datatype Plan = Plan(idle: seq<Segment>, end: int)

  /** Idle periods and end when the unfinished processes from i on are served in table order from time t. */
  function Timeline(ps: seq<Proc>, t: int, i: nat): Plan
    requires i <= |ps|
    decreases |ps| - i
  {
    if i == |ps| then Plan([], t)
    else if ps[i].done then Timeline(ps, t, i + 1)
    else if ps[i].Arrives() <= t then Timeline(ps, t + SWITCH_COST + ps[i].Demand(), i + 1)
    else
      var rest := Timeline(ps, ps[i].Arrives() + SWITCH_COST + ps[i].Demand(), i + 1);
      rest.(idle := [Segment(t, ps[i].Arrives(), IDLE)] + rest.idle)
  }

  /** What the timeline looks at. */
  predicate Alike(p: Proc, q: Proc) {
    p.pid == q.pid && p.arrival == q.arrival && p.burst == q.burst && p.done == q.done
  }

  lemma {:induction false} TimelineAlike(ps: seq<Proc>, qs: seq<Proc>, t: int, i: nat)
    requires i <= |ps| == |qs|
    requires forall j :: i <= j < |ps| ==> Alike(ps[j], qs[j])
    ensures Timeline(ps, t, i) == Timeline(qs, t, i)
    decreases |ps| - i
  {
    if i < |ps| {
      assert Alike(ps[i], qs[i]);
      TimelineAlike(ps, qs, t, i + 1);
      TimelineAlike(ps, qs, t + SWITCH_COST + ps[i].Demand(), i + 1);
      TimelineAlike(ps, qs, ps[i].Arrives() + SWITCH_COST + ps[i].Demand(), i + 1);
    }
  }

  /** `qs` is `ps` after process k has been served. */
  ghost predicate Served(ps: seq<Proc>, k: nat, qs: seq<Proc>) {
    && k < |ps| == |qs|
    && !ps[k].done && Alike(ps[k].(done := true), qs[k])
    && forall j :: 0 <= j < |ps| && j != k ==> Alike(ps[j], qs[j])
  }

  /** Serving any ready process first leaves the timeline as it is. */
  lemma {:induction false} ServeFirst(ps: seq<Proc>, t: int, i: nat, k: nat, qs: seq<Proc>)
    requires Sorted(ps) && Served(ps, k, qs) && i <= k
    requires forall j :: 0 <= j < |ps| ==> 0 <= ps[j].Demand()
    requires Ready(ps[k], t)
    ensures Timeline(ps, t, i) == Timeline(qs, t + SWITCH_COST + ps[k].Demand(), i)
    decreases k - i
  {
    var cost := SWITCH_COST + ps[k].Demand();
    if i == k {
      TimelineAlike(ps, qs, t + cost, k + 1);
      assert Alike(ps[k].(done := true), qs[k]);
    } else {
      assert Alike(ps[i], qs[i]);
      assert Before(ps[i], ps[k]);
      if ps[i].done {
        ServeFirst(ps, t, i + 1, k, qs);
      } else {
        ServeFirst(ps, t + SWITCH_COST + ps[i].Demand(), i + 1, k, qs);
      }
    }
  }

  /** With nothing ready at t the timeline idles until the first arrival at a. */
  lemma {:induction false} IdleFirst(ps: seq<Proc>, t: int, a: int, i: nat, nx: nat)
    requires Sorted(ps) && i <= nx < |ps| && t < a
    requires !ps[nx].done && ps[nx].Arrives() == a
    requires forall j :: 0 <= j < |ps| && !ps[j].done ==> a <= ps[j].Arrives()
    ensures Timeline(ps, t, i).end == Timeline(ps, a, i).end
    ensures Timeline(ps, t, i).idle == [Segment(t, a, IDLE)] + Timeline(ps, a, i).idle
    decreases nx - i
  {
    if ps[i].done {
      IdleFirst(ps, t, a, i + 1, nx);
    } else {
      assert i == nx || Before(ps[i], ps[nx]);
    }
  }

  // ---------------------------------------------------------------- idle segments of a chart

  function Idles(segs: seq<Segment>): seq<Segment> {
    if segs == [] then []
    else
      var last := segs[|segs| - 1];
      Idles(segs[..|segs| - 1]) + if last.pid == IDLE then [last] else []
  }

  lemma BusyKeepsIdles(segs: seq<Segment>, now: int, end: int, pid: int)
    requires pid != IDLE
    ensures Idles(AddSeg(segs, now, end, pid)) == Idles(segs)
  {
    var out := AddSeg(segs, now, end, pid);
    if out != segs {
      assert out[..|out| - 1] == if |out| == |segs| then segs[..|segs| - 1] else segs;
    }
  }

  lemma IdleExtendsIdles(segs: seq<Segment>, now: int, end: int)
    requires now < end && !EndsWith(segs, IDLE)
    ensures Idles(AddSeg(segs, now, end, IDLE)) == Idles(segs) + [Segment(now, end, IDLE)]
  {
    assert AddSeg(segs, now, end, IDLE)[..|segs|] == segs;
  }

  lemma DispatchIdles(c: Cpu, k: nat)
    requires k < |c.ps| && 0 <= c.ps[k].pid
    ensures Idles(Dispatch(c, k).segs) == Idles(c.segs)
  {
    hide Idles, AddSeg;
    var s := SwitchTo(c, c.ps[k].pid);
    BusyKeepsIdles(c.segs, c.now, c.now + SWITCH_COST, SWITCH);
    BusyKeepsIdles(s.segs, s.now, s.now + c.ps[k].remain, c.ps[k].pid);
  }

  // ---------------------------------------------------------------- runs follow the timeline

  /** A state between two iterations in which a finished process ran last. */
  ghost predicate Underway(c: Cpu) {
    && AtLoop(c) && Sorted(c.ps)
    && (forall i :: 0 <= i < |c.ps| && !c.ps[i].done ==> c.ps[i].remain == c.ps[i].Demand() && c.prev != c.ps[i].pid)
    && c.prev != IDLE
  }

  /** The timeline from here, behind the idle periods so far. */
  ghost function Outlook(c: Cpu): Plan {
    var rest := Timeline(c.ps, c.now, 0);
    rest.(idle := Idles(c.segs) + rest.idle)
  }

  lemma WaitKeepsOutlook(c: Cpu)
    requires AtLoop(c) && Sorted(c.ps) && !AllDone(c.ps)
    ensures Outlook(WaitForArrival(c)) == Outlook(c)
  {
    hide Timeline, Idles, AddSeg, NextArrival, Accounted;
    if !AnyReady(c.ps, c.now) {
      NextArrivalExists(c.ps, c.now);
      var nx := NextArrival(c.ps, c.now, |c.ps|);
      var a := c.ps[nx].Arrives();
      IdleFirst(c.ps, c.now, a, 0, nx);
      IdleExtendsIdles(c.segs, c.now, a);
    }
  }

  lemma DispatchServes(c: Cpu, k: nat)
    requires k < |c.ps| && !c.ps[k].done
    ensures Served(c.ps, k, Dispatch(c, k).ps)
  {
    hide Dispatch;
    DispatchShape(c, k);
  }

  lemma DemandsPositive(c: Cpu)
    requires ValidTable(c.ps)
    ensures forall j :: 0 <= j < |c.ps| ==> 0 <= c.ps[j].Demand()
  {
    forall j | 0 <= j < |c.ps| ensures 0 <= c.ps[j].Demand() {
      assert ValidProc(c.ps[j]);
    }
  }

  lemma DispatchKeepsOutlook(c: Cpu, k: nat)
    requires ValidTable(c.ps) && Sorted(c.ps) && k < |c.ps| && Ready(c.ps[k], c.now)
    requires c.ps[k].remain == c.ps[k].Demand() && c.prev != IDLE && c.prev != c.ps[k].pid
    ensures Outlook(Dispatch(c, k)) == Outlook(c)
  {
    hide Dispatch, Idles, Timeline;
    assert ValidProc(c.ps[k]);
    DispatchShape(c, k);
    DispatchIdles(c, k);
    DispatchServes(c, k);
    DemandsPositive(c);
    ServeFirst(c.ps, c.now, 0, k, Dispatch(c, k).ps);
  }

  lemma ServedSorted(ps: seq<Proc>, k: nat, qs: seq<Proc>)
    requires Sorted(ps) && Served(ps, k, qs)
    ensures Sorted(qs)
  {
    forall i, j | 0 <= i < j < |qs| ensures Before(qs[i], qs[j]) {
      assert Before(ps[i], ps[j]);
      assert Alike(ps[i], qs[i]) || i == k;
      assert Alike(ps[j], qs[j]) || j == k;
    }
  }

  /** After a dispatch only processes that never ran are left. */
  lemma DispatchUnderway(c: Cpu, k: nat)
    requires ValidTable(c.ps) && Sorted(c.ps) && k < |c.ps| && !c.ps[k].done
    requires forall i :: 0 <= i < |c.ps| && !c.ps[i].done ==> c.ps[i].remain == c.ps[i].Demand()
    requires AtLoop(Dispatch(c, k))
    ensures Underway(Dispatch(c, k))
  {
    hide Dispatch;
    assert ValidProc(c.ps[k]);
    DispatchShape(c, k);
    DispatchServes(c, k);
    ServedSorted(c.ps, k, Dispatch(c, k).ps);
  }

  lemma StepUnderway(rule: Rule, c: Cpu)
    requires Underway(c) && !AllDone(c.ps)
    ensures Underway(Step(rule, c)) && Outlook(Step(rule, c)) == Outlook(c)
  {
    hide Dispatch, Chosen, Outlook, Accounted;
    TableValid(c);
    var w, k := WaitForArrival(c), Chosen(rule, c);
    WaitKeepsOutlook(c);
    ChosenReady(rule, c);
    DispatchKeepsOutlook(w, k);
    StepAccounted(rule, c);
    DispatchUnderway(w, k);
  }

  /** However the rule chooses, the run ends where the timeline says. */
  lemma {:induction false} RunFollowsTimeline(rule: Rule, c: Cpu)
    requires Underway(c)
    ensures ValidTable(c.ps)
    ensures Run(rule, c).now == Outlook(c).end && Idles(Run(rule, c).segs) == Outlook(c).idle
    decreases Unfinished(c.ps)
  {
    hide Step, Accounted, Idles;
    TableValid(c);
    if AllDone(c.ps) {
      NothingLeft(c.ps, c.now, 0);
    } else {
      StepValid(rule, c);
      StepUnderway(rule, c);
      RunFollowsTimeline(rule, Step(rule, c));
    }
  }

  lemma {:induction false} NothingLeft(ps: seq<Proc>, t: int, i: nat)
    requires AllDone(ps) && i <= |ps|
    ensures Timeline(ps, t, i) == Plan([], t)
    decreases |ps| - i
  {
    if i < |ps| {
      NothingLeft(ps, t, i + 1);
    }
  }

  // ---------------------------------------------------------------- the first dispatch

  /** The first process pays no switch; which ready one it is makes no difference. */
  lemma EitherFirst(c: Cpu, k: nat, m: nat)
    requires ValidTable(c.ps) && Sorted(c.ps) && c.prev == IDLE
    requires k < |c.ps| && m < |c.ps| && k != m && Ready(c.ps[k], c.now) && Ready(c.ps[m], c.now)
    requires c.ps[k].remain == c.ps[k].Demand() && c.ps[m].remain == c.ps[m].Demand()
    ensures Outlook(Dispatch(c, k)) == Outlook(Dispatch(c, m))
  {
    hide Dispatch, Idles, Timeline;
    assert ValidProc(c.ps[k]) && ValidProc(c.ps[m]);
    var d, e := Dispatch(c, k), Dispatch(c, m);
    DispatchShape(c, k);
    DispatchShape(c, m);
    DispatchIdles(c, k);
    DispatchIdles(c, m);
    DispatchServes(c, k);
    DispatchServes(c, m);
    var both := d.ps[m := e.ps[m]];
    ServeSecond(c.ps, k, d.ps, m, e.ps, both);
    ServeSecond(c.ps, m, e.ps, k, d.ps, both);
    ServeFirst(d.ps, d.now, 0, m, both);
    ServeFirst(e.ps, e.now, 0, k, both);
  }

  lemma ServeSecond(ps: seq<Proc>, k: nat, qs: seq<Proc>, m: nat, rs: seq<Proc>, both: seq<Proc>)
    requires ValidTable(ps) && Sorted(ps) && Served(ps, k, qs) && Served(ps, m, rs) && k != m
    requires |both| == |ps| && both[m] == rs[m] && both[k] == qs[k]
    requires forall j :: 0 <= j < |ps| && j != k && j != m ==> Alike(ps[j], both[j])
    ensures Sorted(qs) && Served(qs, m, both)
    ensures forall j :: 0 <= j < |qs| ==> 0 <= qs[j].Demand()
  {
    ServedSorted(ps, k, qs);
    forall j | 0 <= j < |ps| ensures 0 <= qs[j].Demand() {
      assert ValidProc(ps[j]);
      assert j == k || Alike(ps[j], qs[j]);
    }
    assert Alike(ps[m], qs[m]);
  }

  lemma FreshUnstarted(ps: seq<Proc>)
    requires FreshTable(ps)
    ensures forall i :: 0 <= i < |ps| ==> ps[i].remain == ps[i].Demand() && !ps[i].done
    ensures AllDone(ps) ==> ps == []
  {
    forall i | 0 <= i < |ps| ensures ps[i].remain == ps[i].Demand() && !ps[i].done {
      assert Fresh(ps[i]);
    }
    if ps != [] {
      assert !ps[0].done;
    }
  }

  lemma FirstStep(rule: Rule, ps: seq<Proc>)
    requires FreshTable(ps) && Sorted(ps) && ps != []
    ensures !AllDone(ps) && Underway(Step(rule, Boot(ps)))
  {
    hide Dispatch, Chosen, Accounted;
    var c := Boot(ps);
    FreshUnstarted(ps);
    BootAccounted(ps);
    ChosenReady(rule, c);
    StepAccounted(rule, c);
    DispatchUnderway(WaitForArrival(c), Chosen(rule, c));
  }

  lemma SameOutlook(rule1: Rule, rule2: Rule, ps: seq<Proc>)
    requires FreshTable(ps) && Sorted(ps) && ps != []
    ensures !AllDone(ps) && Outlook(Step(rule1, Boot(ps))) == Outlook(Step(rule2, Boot(ps)))
  {
    hide Dispatch, Chosen, Outlook;
    var c := Boot(ps);
    FreshUnstarted(ps);
    ChosenReady(rule1, c);
    ChosenReady(rule2, c);
    if Chosen(rule1, c) != Chosen(rule2, c) {
      EitherFirst(WaitForArrival(c), Chosen(rule1, c), Chosen(rule2, c));
    }
  }

  /** FCFS and SJF idle at the same times and end at the same time, on every table. */
  lemma SameIdleAndMakespan(rule1: Rule, rule2: Rule, ps: seq<Proc>)
    requires FreshTable(ps) && Sorted(ps)
    ensures var run1, run2 := Run(rule1, Boot(ps)), Run(rule2, Boot(ps));
            run1.now == run2.now && Idles(run1.segs) == Idles(run2.segs)
  {
    hide Step, Outlook, Idles;
    if ps != [] {
      SameOutlook(rule1, rule2, ps);
      FirstStep(rule1, ps);
      FirstStep(rule2, ps);
      RunFollowsTimeline(rule1, Step(rule1, Boot(ps)));
      RunFollowsTimeline(rule2, Step(rule2, Boot(ps)));
    }
  }

  // ---------------------------------------------------------------- CPU utilisation

  /** The latest completion time, as the statistics compute it. */
  function FinishMax(ps: seq<Proc>): int {
    if ps == [] then 0
    else
      var rest := FinishMax(ps[..|ps| - 1]);
      if ps[|ps| - 1].finish > rest then ps[|ps| - 1].finish else rest
  }

  /** Sum of the response times, first start minus arrival. */
  function TotalResponse(ps: seq<Proc>): int {
    if ps == [] then 0
    else TotalResponse(ps[..|ps| - 1]) + ps[|ps| - 1].firstStart - ps[|ps| - 1].Arrives()
  }

  function TotalDemand(ps: seq<Proc>): int {
    if ps == [] then 0 else TotalDemand(ps[..|ps| - 1]) + ps[|ps| - 1].Demand()
  }

  lemma {:induction false} WorkWhenDone(ps: seq<Proc>)
    requires forall i :: 0 <= i < |ps| ==> ps[i].remain == 0
    ensures Work(ps) == TotalDemand(ps)
  {
    if ps != [] {
      WorkWhenDone(ps[..|ps| - 1]);
    }
  }

  /** A finished chart: each process ran for its burst, and the rest is idle time and switches. */
  lemma FinalAccounts(c: Cpu)
    requires Accounted(c) && AllDone(c.ps)
    ensures forall i :: 0 <= i < |c.ps| ==> Total(c.segs, c.ps[i].pid) == c.ps[i].Demand()
    ensures c.now == TotalDemand(c.ps) + Total(c.segs, IDLE) + SWITCH_COST * Switches(c.segs)
  {
    hide Total, Partition, Work, Switches;
    forall i | 0 <= i < |c.ps| ensures c.ps[i].remain == 0 {
      assert ValidProc(c.ps[i]) && c.ps[i].done;
    }
    WorkWhenDone(c.ps);
    SwitchTotal(c.segs);
  }

  lemma {:induction false} FinishMaxIs(ps: seq<Proc>, top: int)
    requires 0 <= top && forall i :: 0 <= i < |ps| ==> ps[i].finish <= top
    ensures FinishMax(ps) <= top
    ensures (exists i :: 0 <= i < |ps| && ps[i].finish == top) ==> FinishMax(ps) == top
  {
    if ps != [] {
      var n := |ps| - 1;
      FinishMaxIs(ps[..n], top);
      if i :| 0 <= i < |ps| && ps[i].finish == top {
        if i < n {
          assert ps[..n][i] == ps[i];
        }
      }
    }
  }

  /** Nothing finished later than now, and the last dispatch finished just now. */
  ghost predicate FinishedByNow(c: Cpu) {
    && (forall i :: 0 <= i < |c.ps| && c.ps[i].done ==> c.ps[i].finish <= c.now)
    && (exists i :: 0 <= i < |c.ps| && c.ps[i].done && c.ps[i].finish == c.now)
  }

  lemma StepFinishes(rule: Rule, c: Cpu)
    requires AtLoop(c) && !AllDone(c.ps)
    requires forall i :: 0 <= i < |c.ps| && c.ps[i].done ==> c.ps[i].finish <= c.now
    ensures FinishedByNow(Step(rule, c))
  {
    hide Dispatch, Chosen, Accounted;
    TableValid(c);
    var w, k := WaitForArrival(c), Chosen(rule, c);
    WaitAccounted(c);
    DispatchShape(w, k);
    ChosenReady(rule, c);
    assert ValidProc(c.ps[k]);
    assert Step(rule, c).ps[k].finish == Step(rule, c).now;
  }

  lemma {:induction false} RunFinishes(rule: Rule, c: Cpu)
    requires AtLoop(c) && FinishedByNow(c)
    ensures ValidTable(c.ps) && FinishedByNow(Run(rule, c))
    decreases Unfinished(c.ps)
  {
    hide Step, Accounted;
    TableValid(c);
    if !AllDone(c.ps) {
      StepValid(rule, c);
      StepAccounted(rule, c);
      StepFinishes(rule, c);
      RunFinishes(rule, Step(rule, c));
    }
  }

  /** The statistics' denominator is the end of the chart. */
  lemma MakespanIsFinishMax(rule: Rule, ps: seq<Proc>)
    requires FreshTable(ps) && ps != []
    ensures FinishMax(Run(rule, Boot(ps)).ps) == Run(rule, Boot(ps)).now
  {
    hide Step, Accounted;
    var c := Boot(ps);
    FreshUnstarted(ps);
    BootAccounted(ps);
    StepValid(rule, c);
    StepAccounted(rule, c);
    StepFinishes(rule, c);
    RunFinishes(rule, Step(rule, c));
    RunAccounted(rule, c);
    var run := Run(rule, c);
    NowNonNegative(run);
    FinishMaxIs(run.ps, run.now);
  }

  /** Percentage of the time spent on the processes, as the statistics compute it. */
  function Utilisation(ps: seq<Proc>): real {
    if FinishMax(ps) > 0 then TotalDemand(ps) as real / FinishMax(ps) as real * 100.0 else 0.0
  }

  lemma {:induction false} DemandAlike(ps: seq<Proc>, qs: seq<Proc>)
    requires |ps| == |qs| && forall i :: 0 <= i < |ps| ==> ps[i].burst == qs[i].burst
    ensures TotalDemand(ps) == TotalDemand(qs)
  {
    if ps != [] {
      DemandAlike(ps[..|ps| - 1], qs[..|qs| - 1]);
    }
  }

  lemma {:induction false} RunKeepsDemand(rule: Rule, c: Cpu)
    requires ValidTable(c.ps)
    ensures TotalDemand(Run(rule, c).ps) == TotalDemand(c.ps)
    decreases Unfinished(c.ps)
  {
    hide Dispatch, Chosen, TotalDemand;
    if !AllDone(c.ps) {
      StepValid(rule, c);
      DispatchShape(WaitForArrival(c), Chosen(rule, c));
      DemandAlike(c.ps, Step(rule, c).ps);
      RunKeepsDemand(rule, Step(rule, c));
    }
  }

  /** So FCFS and SJF use the CPU equally well on every table: bursts over the common makespan. */
  lemma SameUtilisation(rule1: Rule, rule2: Rule, ps: seq<Proc>)
    requires FreshTable(ps) && Sorted(ps)
    ensures var qs1, qs2 := Run(rule1, Boot(ps)).ps, Run(rule2, Boot(ps)).ps;
            && FinishMax(qs1) == FinishMax(qs2) && TotalDemand(qs1) == TotalDemand(qs2) == TotalDemand(ps)
            && Utilisation(qs1) == Utilisation(qs2)
  {
    hide Run, FinishMax, TotalDemand, Utilisation;
    SameFinishMax(rule1, rule2, ps);
    RunKeepsDemand(rule1, Boot(ps));
    RunKeepsDemand(rule2, Boot(ps));
    UtilisationOf(Run(rule1, Boot(ps)).ps, Run(rule2, Boot(ps)).ps);
  }

  lemma SameFinishMax(rule1: Rule, rule2: Rule, ps: seq<Proc>)
    requires FreshTable(ps) && Sorted(ps)
    ensures FinishMax(Run(rule1, Boot(ps)).ps) == FinishMax(Run(rule2, Boot(ps)).ps)
  {
    hide Run, FinishMax;
    if ps != [] {
      SameIdleAndMakespan(rule1, rule2, ps);
      MakespanIsFinishMax(rule1, ps);
      MakespanIsFinishMax(rule2, ps);
    }
  }

  lemma Percentage(part: int, whole: int)
    requires 0 < part <= whole
    ensures 0.0 < part as real / whole as real * 100.0 <= 100.0
    ensures part as real / whole as real * 100.0 == 100.0 <==> part == whole
  {
    var p, w := part as real, whole as real;
    var q := p / w;
    assert q * w == p;
  }

  lemma {:induction false} TotalNotNegative(segs: seq<Segment>, pid: int)
    requires forall i :: 0 <= i < |segs| ==> segs[i].start < segs[i].end
    ensures Total(segs, pid) >= 0
  {
    if segs != [] {
      TotalNotNegative(segs[..|segs| - 1], pid);
    }
  }

  lemma {:induction false} DemandPositive(ps: seq<Proc>)
    requires ps != [] && forall i :: 0 <= i < |ps| ==> ValidProc(ps[i])
    ensures TotalDemand(ps) > 0
  {
    assert ValidProc(ps[|ps| - 1]);
    if |ps| > 1 {
      DemandPositive(ps[..|ps| - 1]);
    }
  }

  /** Utilisation is a percentage, and it is 100 exactly when the CPU neither idles nor switches. */
  lemma FullUtilisation(rule: Rule, ps: seq<Proc>)
    requires FreshTable(ps) && ps != []
    ensures var c := Run(rule, Boot(ps));
            && 0.0 < Utilisation(c.ps) <= 100.0
            && (Utilisation(c.ps) == 100.0 <==> Total(c.segs, IDLE) == 0 && Switches(c.segs) == 0)
  {
    hide Run, FinishMax, TotalDemand, Total, Switches, Work;
    BootAccounted(ps);
    RunAccounted(rule, Boot(ps));
    var c := Run(rule, Boot(ps));
    MakespanIsFinishMax(rule, ps);
    FinalAccounts(c);
    DemandPositive(c.ps);
    TotalNotNegative(c.segs, IDLE);
    Percentage(TotalDemand(c.ps), c.now);
  }

  lemma UtilisationOf(ps: seq<Proc>, qs: seq<Proc>)
    requires FinishMax(ps) == FinishMax(qs) && TotalDemand(ps) == TotalDemand(qs)
    ensures Utilisation(ps) == Utilisation(qs)
  {
    hide FinishMax, TotalDemand;
  }

  lemma NowNonNegative(c: Cpu)
    requires Accounted(c)
    ensures 0 <= c.now
  {
    StartsBelow(c.segs, c.now, |c.segs|);
  }

  lemma {:induction false} StartsBelow(segs: seq<Segment>, now: int, n: nat)
    requires Partition(segs, now) && n <= |segs|
    ensures n > 0 ==> 0 < segs[n - 1].end
    ensures n == |segs| ==> 0 <= now
  {
    if n > 1 {
      StartsBelow(segs, now, n - 1);
      assert Follows(segs[n - 2], segs[n - 1]);
    }
  }
}

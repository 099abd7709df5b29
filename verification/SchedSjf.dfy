/** Shortest job first: with one common arrival time no order waits less in total. */
module SchedSjf {
  import opened Sets
  import opened SchedModel
  import opened SchedPick
  import opened SchedNonPreemptive
  import opened SchedTimeline

  predicate InRange(ps: seq<Proc>, order: seq<int>) {
    forall i :: 0 <= i < |order| ==> 0 <= order[i] < |ps|
  }

  /** Total waiting time of the processes in `order`, served one after the other from time t. */
  function OrderWait(ps: seq<Proc>, arrives: int, t: int, order: seq<int>): int
    requires InRange(ps, order)
    decreases |order|
  {
    if order == [] then 0
    else (t - arrives) + OrderWait(ps, arrives, t + ps[order[0]].Demand() + SWITCH_COST, order[1..])
  }

  lemma FirstWaits(ps: seq<Proc>, arrives: int, t: int, x: int, rest: seq<int>)
    requires 0 <= x < |ps| && InRange(ps, rest)
    ensures InRange(ps, [x] + rest)
    ensures OrderWait(ps, arrives, t, [x] + rest)
         == (t - arrives) + OrderWait(ps, arrives, t + ps[x].Demand() + SWITCH_COST, rest)
  {
    assert ([x] + rest)[1..] == rest;
  }

  /** The exchange: serving a shortest process earlier never adds waiting time. */
  lemma {:induction false} ShortestFirst(ps: seq<Proc>, arrives: int, t: int, before: seq<int>, k: int, after: seq<int>)
    requires InRange(ps, before) && 0 <= k < |ps| && InRange(ps, after)
    requires forall i :: 0 <= i < |before| ==> ps[k].burst <= ps[before[i]].burst
    ensures InRange(ps, [k] + (before + after)) && InRange(ps, before + ([k] + after))
    ensures OrderWait(ps, arrives, t, [k] + (before + after)) <= OrderWait(ps, arrives, t, before + ([k] + after))
    decreases |before|
  {
    hide OrderWait;
    if before == [] {
      assert before + ([k] + after) == [k] + (before + after);
    } else {
      var x, rest := before[0], before[1..];
      var tail := rest + after;
      ShortestFirst(ps, arrives, t + ps[x].Demand() + SWITCH_COST, rest, k, after);
      assert before + ([k] + after) == [x] + (rest + ([k] + after));
      assert before + after == [x] + tail;
      FirstWaits(ps, arrives, t, x, rest + ([k] + after));
      FrontTwo(ps, arrives, t, k, x, tail);
    }
  }

  lemma FrontTwo(ps: seq<Proc>, arrives: int, t: int, k: int, x: int, tail: seq<int>)
    requires 0 <= k < |ps| && 0 <= x < |ps| && ps[k].burst <= ps[x].burst
    requires InRange(ps, tail)
    ensures InRange(ps, [k] + tail) && InRange(ps, [k] + ([x] + tail))
    ensures OrderWait(ps, arrives, t, [k] + ([x] + tail))
         <= (t - arrives) + OrderWait(ps, arrives, t + ps[x].Demand() + SWITCH_COST, [k] + tail)
  {
    hide OrderWait;
    FirstWaits(ps, arrives, t + ps[k].Demand() + SWITCH_COST, x, tail);
    FirstWaits(ps, arrives, t, k, [x] + tail);
    FirstWaits(ps, arrives, t + ps[x].Demand() + SWITCH_COST, k, tail);
  }

  // ---------------------------------------------------------------- the order of a run

  /** The processes in the order a run serves them. */
  function DispatchOrder(rule: Rule, c: Cpu): (order: seq<int>)
    requires ValidTable(c.ps)
    ensures InRange(c.ps, order)
    decreases Unfinished(c.ps)
  {
    if AllDone(c.ps) then []
    else
      StepValid(rule, c);
      [Chosen(rule, c)] + DispatchOrder(rule, Step(rule, c))
  }

  /** `order` lists the unfinished processes, each once. */
  ghost predicate Lists(ps: seq<Proc>, order: seq<int>) {
    && Distinct(order)
    && forall i :: i in order <==> 0 <= i < |ps| && !ps[i].done
  }

  lemma StepTable(rule: Rule, c: Cpu)
    requires ValidTable(c.ps) && !AllDone(c.ps)
    ensures var k, w, d := Chosen(rule, c), WaitForArrival(c), Step(rule, c);
            && !c.ps[k].done && Ready(c.ps[k], w.now)
            && d.ps == c.ps[k := Finished(c.ps[k], w.now + SwitchTicks(w, k), d.now)]
            && d.now == w.now + SwitchTicks(w, k) + c.ps[k].remain
            && d.prev == c.ps[k].pid
  {
    hide Chosen, Dispatch;
    ChosenReady(rule, c);
    DispatchShape(WaitForArrival(c), Chosen(rule, c));
  }

  lemma ListsCons(ps: seq<Proc>, k: nat, qs: seq<Proc>, rest: seq<int>)
    requires k < |ps| && !ps[k].done && Lists(qs, rest)
    requires |qs| == |ps| && qs[k].done && qs == ps[k := qs[k]]
    ensures Lists(ps, [k] + rest)
  {
    var order := [k] + rest;
    forall i ensures i in order <==> 0 <= i < |ps| && !ps[i].done {
      assert i in order <==> i == k || i in rest;
    }
  }

  lemma {:induction false} OrderLists(rule: Rule, c: Cpu)
    requires ValidTable(c.ps)
    ensures Lists(c.ps, DispatchOrder(rule, c))
    decreases Unfinished(c.ps)
  {
    hide Chosen, Step;
    if !AllDone(c.ps) {
      StepValid(rule, c);
      StepTable(rule, c);
      var rest := DispatchOrder(rule, Step(rule, c));
      OrderLists(rule, Step(rule, c));
      ListsCons(c.ps, Chosen(rule, c), Step(rule, c).ps, rest);
    }
  }

  // ---------------------------------------------------------------- waiting times

  /** Waiting time as the statistics define it. */
  function Wait(p: Proc): int {
    p.finish - p.Arrives() - p.Demand()
  }

  /** Sum of the final waiting times of the processes unfinished in `ps`. */
  function WaitLeft(ps: seq<Proc>, final: seq<Proc>): int
    requires |ps| == |final|
  {
    if ps == [] then 0
    else
      var n := |ps| - 1;
      WaitLeft(ps[..n], final[..n]) + if ps[n].done then 0 else Wait(final[n])
  }

  /** The sum the statistics print, before dividing by the number of processes. */
  function TotalWait(ps: seq<Proc>): int {
    if ps == [] then 0 else TotalWait(ps[..|ps| - 1]) + Wait(ps[|ps| - 1])
  }

  lemma {:induction false} WaitLeftAll(ps: seq<Proc>, final: seq<Proc>)
    requires |ps| == |final| && forall i :: 0 <= i < |ps| ==> !ps[i].done
    ensures WaitLeft(ps, final) == TotalWait(final)
  {
    if ps != [] {
      WaitLeftAll(ps[..|ps| - 1], final[..|ps| - 1]);
    }
  }

  lemma {:induction false} WaitLeftNone(ps: seq<Proc>, final: seq<Proc>)
    requires |ps| == |final| && AllDone(ps)
    ensures WaitLeft(ps, final) == 0
  {
    if ps != [] {
      WaitLeftNone(ps[..|ps| - 1], final[..|ps| - 1]);
    }
  }

  lemma {:induction false} WaitLeftStep(ps: seq<Proc>, final: seq<Proc>, k: nat, p: Proc)
    requires k < |ps| == |final| && !ps[k].done && p.done
    ensures WaitLeft(ps, final) == Wait(final[k]) + WaitLeft(ps[k := p], final)
  {
    var n := |ps| - 1;
    if k < n {
      WaitLeftStep(ps[..n], final[..n], k, p);
      assert ps[k := p][..n] == ps[..n][k := p];
    } else {
      assert ps[k := p][..n] == ps[..n];
    }
  }

  /** A finished process is not touched again. */
  lemma {:induction false} FinishedStays(rule: Rule, c: Cpu, i: nat)
    requires ValidTable(c.ps) && i < |c.ps| && c.ps[i].done
    ensures Run(rule, c).ps[i] == c.ps[i]
    decreases Unfinished(c.ps)
  {
    hide Step, Chosen;
    if !AllDone(c.ps) {
      StepValid(rule, c);
      StepTable(rule, c);
      FinishedStays(rule, Step(rule, c), i);
    }
  }

  /** All processes arrive at the same time; the unfinished ones have not run yet. */
  ghost predicate TogetherAt(ps: seq<Proc>, c: Cpu, arrives: int) {
    && |c.ps| == |ps|
    && (forall i :: 0 <= i < |ps| ==> SameJob(ps[i], c.ps[i]) && ps[i].Arrives() == arrives)
    && (forall i :: 0 <= i < |ps| && !c.ps[i].done ==> c.ps[i].remain == c.ps[i].Demand() && c.prev != c.ps[i].pid)
  }

  /** When the next process gets the CPU. */
  function NextStart(c: Cpu, arrives: int): int {
    Max(c.now, arrives) + if c.prev == IDLE then 0 else SWITCH_COST
  }

  lemma StepTogether(rule: Rule, ps: seq<Proc>, c: Cpu, arrives: int)
    requires ValidTable(c.ps) && !AllDone(c.ps) && TogetherAt(ps, c, arrives)
    ensures var k, d := Chosen(rule, c), Step(rule, c);
            && TogetherAt(ps, d, arrives)
            && d.ps[k].finish == NextStart(c, arrives) + ps[k].Demand()
            && NextStart(d, arrives) == NextStart(c, arrives) + ps[k].Demand() + SWITCH_COST
  {
    hide Step, Chosen, WaitForArrival;
    var k, w := Chosen(rule, c), WaitForArrival(c);
    StepTable(rule, c);
    assert SameJob(ps[k], c.ps[k]);
    assert forall j :: 0 <= j < |ps| ==> SameJob(ps[j], c.ps[j]) && c.ps[j].arrival == c.ps[k].arrival;
    WaitsForHead(c, k);
    assert ValidProc(c.ps[k]);
  }

  lemma RunUnfolds(rule: Rule, c: Cpu)
    requires ValidTable(c.ps) && !AllDone(c.ps)
    ensures ValidTable(Step(rule, c).ps)
    ensures Run(rule, c) == Run(rule, Step(rule, c))
    ensures DispatchOrder(rule, c) == [Chosen(rule, c)] + DispatchOrder(rule, Step(rule, c))
  {
    hide Step, Chosen;
    StepValid(rule, c);
  }

  /** The statistics' sum over a run is the waiting time of its order. */
  lemma {:induction false} RunWait(rule: Rule, ps: seq<Proc>, c: Cpu, arrives: int)
    requires ValidTable(c.ps) && TogetherAt(ps, c, arrives)
    ensures WaitLeft(c.ps, Run(rule, c).ps) == OrderWait(ps, arrives, NextStart(c, arrives), DispatchOrder(rule, c))
    decreases Unfinished(c.ps)
  {
    hide Step, Chosen, NextStart, TogetherAt, ValidTable, WaitLeft;
    SameLength(ps, c, arrives);
    if AllDone(c.ps) {
      WaitLeftNone(c.ps, Run(rule, c).ps);
    } else {
      var k, d := Chosen(rule, c), Step(rule, c);
      RunUnfolds(rule, c);
      StepValid(rule, c);
      RunWaitStep(rule, ps, c, arrives);
      RunWait(rule, ps, d, arrives);
      SameLength(ps, d, arrives);
      FirstWaits(ps, arrives, NextStart(c, arrives), k, DispatchOrder(rule, d));
    }
  }

  lemma RunWaitStep(rule: Rule, ps: seq<Proc>, c: Cpu, arrives: int)
    requires ValidTable(c.ps) && !AllDone(c.ps) && TogetherAt(ps, c, arrives)
    ensures var k, d, start := Chosen(rule, c), Step(rule, c), NextStart(c, arrives);
            && ValidTable(d.ps) && TogetherAt(ps, d, arrives)
            && WaitLeft(c.ps, Run(rule, c).ps) == (start - arrives) + WaitLeft(d.ps, Run(rule, d).ps)
            && NextStart(d, arrives) == start + ps[k].Demand() + SWITCH_COST
  {
    hide Step, Chosen, NextStart, TogetherAt, Run, WaitLeft;
    var k, d := Chosen(rule, c), Step(rule, c);
    RunUnfolds(rule, c);
    StepTable(rule, c);
    StepTogether(rule, ps, c, arrives);
    WaitLeftStep(c.ps, Run(rule, c).ps, k, d.ps[k]);
    FinishedStays(rule, d, k);
    SameEntry(ps, d, arrives, k);
  }

  lemma SameLength(ps: seq<Proc>, c: Cpu, arrives: int)
    requires TogetherAt(ps, c, arrives)
    ensures |c.ps| == |ps|
  {}

  lemma SameEntry(ps: seq<Proc>, c: Cpu, arrives: int, k: nat)
    requires TogetherAt(ps, c, arrives) && k < |c.ps|
    ensures k < |ps|
    ensures c.ps[k].Arrives() == arrives && c.ps[k].Demand() == ps[k].Demand()
  {
    assert SameJob(ps[k], c.ps[k]);
  }

  // ---------------------------------------------------------------- optimality

  /** With everybody ready, SJF takes a process of least burst. */
  lemma ChoosesShortest(ps: seq<Proc>, c: Cpu, arrives: int, i: nat)
    requires ValidTable(c.ps) && !AllDone(c.ps) && TogetherAt(ps, c, arrives)
    requires i < |ps| && !c.ps[i].done
    ensures ps[Chosen(Sjf, c)].burst <= ps[i].burst
  {
    hide Chosen, WaitForArrival;
    var k, w := Chosen(Sjf, c), WaitForArrival(c);
    ChosenReady(Sjf, c);
    assert SameJob(ps[k], c.ps[k]) && SameJob(ps[i], c.ps[i]);
    assert ps[k].Arrives() == ps[i].Arrives();
    assert Ready(c.ps[i], w.now);
  }

  lemma RemoveListed(ps: seq<Proc>, order: seq<int>, m: nat, qs: seq<Proc>)
    requires Lists(ps, order) && m < |order|
    requires |qs| == |ps| && 0 <= order[m] < |ps| && qs[order[m]].done
    requires forall i :: 0 <= i < |ps| && i != order[m] ==> qs[i].done == ps[i].done
    ensures Lists(qs, order[..m] + order[m + 1..])
  {
    var rest := order[..m] + order[m + 1..];
    assert order == order[..m] + [order[m]] + order[m + 1..];
    forall i ensures i in rest <==> 0 <= i < |qs| && !qs[i].done {
      assert i in order <==> i in rest || i == order[m];
      if i == order[m] {
        assert i !in order[..m] && i !in order[m + 1..];
      }
    }
  }

  /** SJF's choice is listed, and nothing listed is shorter. */
  lemma ChoiceListed(ps: seq<Proc>, c: Cpu, arrives: int, order: seq<int>) returns (m: nat)
    requires ValidTable(c.ps) && !AllDone(c.ps) && TogetherAt(ps, c, arrives)
    requires Lists(c.ps, order) && InRange(ps, order)
    ensures m < |order| && order[m] == Chosen(Sjf, c)
    ensures forall i :: 0 <= i < |order| ==> ps[order[m]].burst <= ps[order[i]].burst
  {
    hide Chosen, TogetherAt, ValidTable;
    var k := Chosen(Sjf, c);
    ChosenReady(Sjf, c);
    assert k in order;
    m :| 0 <= m < |order| && order[m] == k;
    forall i | 0 <= i < |order| ensures ps[k].burst <= ps[order[i]].burst {
      assert order[i] in order;
      ChoosesShortest(ps, c, arrives, order[i]);
    }
  }

  /** Moving SJF's choice to the front of any order leaves an order for the rest. */
  lemma ChoiceFirst(ps: seq<Proc>, c: Cpu, arrives: int, t: int, order: seq<int>) returns (rest: seq<int>)
    requires ValidTable(c.ps) && !AllDone(c.ps) && TogetherAt(ps, c, arrives)
    requires Lists(c.ps, order) && InRange(ps, order)
    ensures Lists(Step(Sjf, c).ps, rest) && InRange(ps, rest)
    ensures Chosen(Sjf, c) < |ps|
    ensures (t - arrives) + OrderWait(ps, arrives, t + ps[Chosen(Sjf, c)].Demand() + SWITCH_COST, rest)
         <= OrderWait(ps, arrives, t, order)
  {
    hide Step, Chosen, Lists, TogetherAt, ValidTable, OrderWait;
    var k := Chosen(Sjf, c);
    StepTable(Sjf, c);
    var m := ChoiceListed(ps, c, arrives, order);
    ShortestFirst(ps, arrives, t, order[..m], k, order[m + 1..]);
    assert order == order[..m] + ([k] + order[m + 1..]);
    rest := order[..m] + order[m + 1..];
    RemoveListed(c.ps, order, m, Step(Sjf, c).ps);
    FirstWaits(ps, arrives, t, k, rest);
  }

  lemma NothingListed(ps: seq<Proc>, order: seq<int>)
    requires AllDone(ps) && Lists(ps, order)
    ensures order == []
  {
    assert forall i :: i !in order;
    assert Elems(order) == {};
    ElemsCard(order);
  }

  /** No order of the unfinished processes beats the one SJF takes. */
  lemma {:induction false} SjfOrderBest(ps: seq<Proc>, c: Cpu, arrives: int, order: seq<int>)
    requires ValidTable(c.ps) && TogetherAt(ps, c, arrives)
    requires Lists(c.ps, order) && InRange(ps, order)
    ensures OrderWait(ps, arrives, NextStart(c, arrives), DispatchOrder(Sjf, c))
         <= OrderWait(ps, arrives, NextStart(c, arrives), order)
    decreases Unfinished(c.ps)
  {
    hide Step, Chosen, NextStart, Lists, TogetherAt, ValidTable;
    if AllDone(c.ps) {
      NothingListed(c.ps, order);
    } else {
      var d := Step(Sjf, c);
      StepValid(Sjf, c);
      StepTogether(Sjf, ps, c, arrives);
      var rest := ChoiceFirst(ps, c, arrives, NextStart(c, arrives), order);
      SjfOrderBest(ps, d, arrives, rest);
      assert DispatchOrder(Sjf, c)[1..] == DispatchOrder(Sjf, d);
    }
  }

  /** When a simulated run begins with all processes arriving together. */
  lemma TogetherAtBoot(ps: seq<Proc>, arrives: int)
    requires FreshTable(ps) && forall i :: 0 <= i < |ps| ==> ps[i].Arrives() == arrives
    ensures TogetherAt(ps, Boot(ps), arrives)
  {
    forall i | 0 <= i < |ps| ensures ps[i].remain == ps[i].Demand() && ps[i].pid != IDLE {
      assert Fresh(ps[i]) && ValidProc(ps[i]);
    }
  }

  /** SJF's total waiting time is at most that of every order, with the same switch costs. */
  lemma SjfOptimal(ps: seq<Proc>, arrives: int, order: seq<int>)
    requires FreshTable(ps) && forall i :: 0 <= i < |ps| ==> ps[i].Arrives() == arrives
    requires Lists(ps, order) && InRange(ps, order)
    ensures TotalWait(Run(Sjf, Boot(ps)).ps) <= OrderWait(ps, arrives, Max(0, arrives), order)
  {
    hide Step, TogetherAt;
    var c := Boot(ps);
    TogetherAtBoot(ps, arrives);
    RunWait(Sjf, ps, c, arrives);
    FreshUnstarted(ps);
    WaitLeftAll(ps, Run(Sjf, c).ps);
    SjfOrderBest(ps, c, arrives, order);
  }

  /** In particular SJF never waits more in total than FCFS. */
  lemma SjfBeatsFcfs(ps: seq<Proc>, arrives: int)
    requires FreshTable(ps) && forall i :: 0 <= i < |ps| ==> ps[i].Arrives() == arrives
    ensures TotalWait(Run(Sjf, Boot(ps)).ps) <= TotalWait(Run(Fcfs, Boot(ps)).ps)
  {
    hide Step, TogetherAt;
    var c := Boot(ps);
    TogetherAtBoot(ps, arrives);
    OrderLists(Fcfs, c);
    SjfOptimal(ps, arrives, DispatchOrder(Fcfs, c));
    RunWait(Fcfs, ps, c, arrives);
    FreshUnstarted(ps);
    WaitLeftAll(ps, Run(Fcfs, c).ps);
  }
}

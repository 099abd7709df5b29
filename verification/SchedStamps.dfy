/**
 The times in the process table against the Gantt chart: a process has started
 where its first segment starts and has finished where its last one ends.
 */
module SchedStamps {
  import opened SchedModel
  import opened SchedPick
  import NP = SchedNonPreemptive
  import SRTF = SchedSrtf
  import opened SchedRoundRobin
  import opened SchedRrRuns
  import opened SchedRrTimes
  import opened SchedTimeline
  import opened SchedSjf

  predicate FirstOf(segs: seq<Segment>, pid: int, j: int) {
    0 <= j < |segs| && segs[j].pid == pid && forall m :: 0 <= m < j ==> segs[m].pid != pid
  }

  predicate LastOf(segs: seq<Segment>, pid: int, j: int) {
    0 <= j < |segs| && segs[j].pid == pid && forall m :: j < m < |segs| ==> segs[m].pid != pid
  }

  predicate Absent(segs: seq<Segment>, pid: int) {
    forall m :: 0 <= m < |segs| ==> segs[m].pid != pid
  }

  ghost predicate StartsOnChart(p: Proc, segs: seq<Segment>) {
    exists j :: FirstOf(segs, p.pid, j) && segs[j].start == p.firstStart
  }

  ghost predicate EndsOnChart(p: Proc, segs: seq<Segment>) {
    exists j :: LastOf(segs, p.pid, j) && segs[j].end == p.finish
  }

  /** The stamps of one process; between them lies at least the time it has run. */
  ghost predicate Stamped(p: Proc, segs: seq<Segment>, now: int) {
    && (p.done ==> p.started)
    && (if p.started then StartsOnChart(p, segs) else Absent(segs, p.pid) && p.remain == p.Demand())
    && (p.done ==> EndsOnChart(p, segs))
    && (p.started ==> p.firstStart + p.Demand() - p.remain <= if p.done then p.finish else now)
  }

  ghost predicate Stamps(c: Cpu) {
    forall i :: 0 <= i < |c.ps| ==> Stamped(c.ps[i], c.segs, c.now)
  }

  // ---------------------------------------------------------------- one more segment

  lemma AddSegAt(segs: seq<Segment>, start: int, end: int, pid: int)
    requires start < end
    ensures var out, n := AddSeg(segs, start, end, pid), |segs|;
            && n <= |out| <= n + 1 && out != []
            && out[|out| - 1].pid == pid && out[|out| - 1].end == end
            && (|out| == n ==> n > 0 && segs[n - 1].pid == pid && out[n - 1].start == segs[n - 1].start)
            && (|out| == n + 1 ==> out[n].start == start)
            && forall j :: 0 <= j < |out| - 1 ==> out[j] == segs[j]
  {}

  /** Somebody else's segment leaves the stamps of p. */
  lemma OthersStamped(p: Proc, segs: seq<Segment>, now: int, end: int, pid: int)
    requires Stamped(p, segs, now) && p.pid != pid && now < end
    ensures Stamped(p, AddSeg(segs, now, end, pid), end)
  {
    hide AddSeg;
    AddSegAt(segs, now, end, pid);
    var out := AddSeg(segs, now, end, pid);
    if p.started {
      var j :| FirstOf(segs, p.pid, j) && segs[j].start == p.firstStart;
      assert FirstOf(out, p.pid, j);
    }
    if p.done {
      var j :| LastOf(segs, p.pid, j) && segs[j].end == p.finish;
      assert LastOf(out, p.pid, j);
    }
  }

  /** Its own segment: it starts there if it has not started, and if it is done it ends there. */
  lemma OwnStamped(p: Proc, segs: seq<Segment>, now: int, ran: int, p': Proc)
    requires Stamped(p, segs, now) && !p.done && 0 < ran
    requires SameJob(p', p) && p'.started && p'.firstStart == (if p.started then p.firstStart else now)
    requires p'.remain == p.remain - ran && (p'.done ==> p'.finish == now + ran)
    ensures Stamped(p', AddSeg(segs, now, now + ran, p.pid), now + ran)
  {
    hide AddSeg;
    AddSegAt(segs, now, now + ran, p.pid);
    var out := AddSeg(segs, now, now + ran, p.pid);
    var n := |out| - 1;
    if p.started {
      var j :| FirstOf(segs, p.pid, j) && segs[j].start == p.firstStart;
      assert FirstOf(out, p.pid, j);
    } else {
      assert FirstOf(out, p.pid, n);
    }
    assert LastOf(out, p.pid, n);
  }

  // ---------------------------------------------------------------- the parts of the simulators

  lemma OverheadStamps(c: Cpu, end: int, pid: int)
    requires Stamps(c) && ValidTable(c.ps) && pid < 0 && c.now < end
    ensures Stamps(c.(now := end, segs := AddSeg(c.segs, c.now, end, pid)))
  {
    hide AddSeg, Stamped;
    forall i | 0 <= i < |c.ps| ensures Stamped(c.ps[i], AddSeg(c.segs, c.now, end, pid), end) {
      assert ValidProc(c.ps[i]);
      OthersStamped(c.ps[i], c.segs, c.now, end, pid);
    }
  }

  lemma SwitchStamps(c: Cpu, pid: int)
    requires Stamps(c) && ValidTable(c.ps)
    ensures Stamps(SwitchTo(c, pid))
  {
    hide AddSeg, Stamped;
    if SwitchTo(c, pid) != c {
      OverheadStamps(c, c.now + SWITCH_COST, SWITCH);
    }
  }

  lemma WaitStamps(c: Cpu)
    requires Stamps(c) && ValidTable(c.ps) && !AllDone(c.ps)
    ensures Stamps(WaitForArrival(c))
  {
    hide AddSeg, Stamped;
    if !AnyReady(c.ps, c.now) {
      NextArrivalExists(c.ps, c.now);
      OverheadStamps(c, c.ps[NextArrival(c.ps, c.now, |c.ps|)].Arrives(), IDLE);
    }
  }

  /** First start, then a run of `ran` ticks. */
  lemma ServeStamps(c: Cpu, k: nat, ran: int)
    requires Stamps(c) && ValidTable(c.ps) && k < |c.ps| && !c.ps[k].done && 0 < ran <= c.ps[k].remain
    ensures Stamps(Execute(NoteStart(c, k), k, ran))
  {
    hide AddSeg, Stamped;
    var d := Execute(NoteStart(c, k), k, ran);
    forall i | 0 <= i < |d.ps| ensures Stamped(d.ps[i], d.segs, d.now) {
      assert Stamped(c.ps[i], c.segs, c.now);
      if i == k {
        OwnStamped(c.ps[k], c.segs, c.now, ran, d.ps[k]);
      } else {
        PidsDiffer(c.ps, i, k);
        OthersStamped(c.ps[i], c.segs, c.now, d.now, c.ps[k].pid);
      }
    }
  }

  lemma PidsDiffer(ps: seq<Proc>, i: nat, k: nat)
    requires ValidTable(ps) && i < |ps| && k < |ps| && i != k
    ensures ps[i].pid != ps[k].pid
  {
    if i > k {
      assert ps[k].pid != ps[i].pid;
    }
  }

  lemma PrevPlaysNoPart(c: Cpu, prev: int)
    requires Stamps(c)
    ensures Stamps(c.(prev := prev))
  {}

  lemma BootStamps(ps: seq<Proc>)
    requires FreshTable(ps)
    ensures Stamps(Boot(ps))
  {
    forall i | 0 <= i < |ps| ensures Stamped(ps[i], [], 0) {
      assert Fresh(ps[i]);
    }
  }

  // ---------------------------------------------------------------- FCFS and SJF

  lemma DispatchStamps(c: Cpu, k: nat)
    requires Stamps(c) && ValidTable(c.ps) && k < |c.ps| && !c.ps[k].done
    ensures Stamps(NP.Dispatch(c, k))
  {
    hide AddSeg, Stamps;
    assert ValidProc(c.ps[k]);
    var s := SwitchTo(c, c.ps[k].pid);
    SwitchStamps(c, c.ps[k].pid);
    ServeStamps(s, k, c.ps[k].remain);
    PrevPlaysNoPart(Execute(NoteStart(s, k), k, c.ps[k].remain), c.ps[k].pid);
  }

  lemma {:induction false} RunStamps(rule: Rule, c: Cpu)
    requires Stamps(c) && ValidTable(c.ps)
    ensures Stamps(NP.Run(rule, c)) && AllDone(NP.Run(rule, c).ps)
    decreases Unfinished(c.ps)
  {
    hide NP.Dispatch, NP.Chosen, WaitForArrival, Stamps;
    if !AllDone(c.ps) {
      WaitStamps(c);
      NP.ChosenReady(rule, c);
      DispatchStamps(WaitForArrival(c), NP.Chosen(rule, c));
      NP.StepValid(rule, c);
      RunStamps(rule, NP.Step(rule, c));
    }
  }

  /** On every FCFS and SJF run each process starts where its first segment starts and ends where its last one ends. */
  lemma NonPreemptiveStamps(rule: Rule, ps: seq<Proc>, i: nat)
    requires FreshTable(ps) && i < |ps|
    ensures var c := NP.Run(rule, Boot(ps)); StartsOnChart(c.ps[i], c.segs) && EndsOnChart(c.ps[i], c.segs)
  {
    hide NP.Run, StartsOnChart, EndsOnChart;
    BootStamps(ps);
    RunStamps(rule, Boot(ps));
    var c := NP.Run(rule, Boot(ps));
    assert Stamped(c.ps[i], c.segs, c.now);
  }

  // ---------------------------------------------------------------- SRTF

  /** Whoever held the CPU last, and may go on without a switch, has started. */
  ghost predicate HolderStarted(c: Cpu) {
    forall i :: 0 <= i < |c.ps| && c.ps[i].pid == c.prev ==> c.ps[i].started
  }

  lemma ResumeIsEntry(c: Cpu, k: nat)
    requires HolderStarted(c) && k < |c.ps|
    ensures SRTF.Resume(c, k) == NoteStart(SwitchTo(c, c.ps[k].pid), k)
  {}

  lemma SrtfStepStamps(c: Cpu)
    requires Stamps(c) && HolderStarted(c) && ValidTable(c.ps) && !AllDone(c.ps)
    ensures Stamps(SRTF.Step(c)) && HolderStarted(SRTF.Step(c))
  {
    hide AddSeg, Stamps, NP.Chosen, WaitForArrival, SRTF.Slice;
    var w, k := WaitForArrival(c), NP.Chosen(Srtf, c);
    WaitStamps(c);
    NP.ChosenReady(Srtf, c);
    ResumeIsEntry(w, k);
    var s, r := SwitchTo(w, c.ps[k].pid), SRTF.Resume(w, k);
    SwitchStamps(w, c.ps[k].pid);
    SRTF.ResumeShape(w, k);
    SRTF.SliceBounds(r, k);
    ServeStamps(s, k, SRTF.Slice(r, k));
    PrevPlaysNoPart(Execute(r, k, SRTF.Slice(r, k)), SRTF.Step(c).prev);
    HolderIsServed(c, k);
  }

  lemma HolderIsServed(c: Cpu, k: nat)
    requires HolderStarted(c) && ValidTable(c.ps) && !AllDone(c.ps) && k == NP.Chosen(Srtf, c)
    ensures HolderStarted(SRTF.Step(c))
  {
    hide AddSeg, NP.Chosen, WaitForArrival, SRTF.Slice;
    forall i | 0 <= i < |c.ps| ensures 0 <= c.ps[i].pid && (i != k ==> c.ps[i].pid != c.ps[k].pid) {
      assert ValidProc(c.ps[i]);
      if i != k {
        PidsDiffer(c.ps, i, k);
      }
    }
  }

  lemma {:induction false} SrtfRunStamps(c: Cpu)
    requires Stamps(c) && HolderStarted(c) && ValidTable(c.ps)
    ensures Stamps(SRTF.Run(c)) && AllDone(SRTF.Run(c).ps) && |SRTF.Run(c).ps| == |c.ps|
    decreases SRTF.Measure(c)
  {
    hide SRTF.Step, Stamps, HolderStarted;
    if !AllDone(c.ps) {
      SrtfStepStamps(c);
      SRTF.StepConsumes(c);
      SrtfRunStamps(SRTF.Step(c));
    }
  }

  /** The same on every SRTF run, however often the process is preempted. */
  lemma SrtfStamps(ps: seq<Proc>, i: nat)
    requires FreshTable(ps) && i < |ps|
    ensures var c := SRTF.Run(Boot(ps));
            |c.ps| == |ps| && StartsOnChart(c.ps[i], c.segs) && EndsOnChart(c.ps[i], c.segs)
  {
    hide SRTF.Run, StartsOnChart, EndsOnChart;
    SrtfBoot(ps);
    SrtfRunStamps(Boot(ps));
    var c := SRTF.Run(Boot(ps));
    assert Stamped(c.ps[i], c.segs, c.now);
  }

  lemma SrtfBoot(ps: seq<Proc>)
    requires FreshTable(ps)
    ensures Stamps(Boot(ps)) && HolderStarted(Boot(ps))
  {
    BootStamps(ps);
    forall i | 0 <= i < |ps| ensures ps[i].pid != IDLE {
      assert ValidProc(ps[i]);
    }
  }

  // ---------------------------------------------------------------- round robin

  lemma TurnStamps(s: Rr, tq: int)
    requires Sound(s) && Stamps(s.cpu) && s.f < |s.q| && tq >= 1
    ensures Stamps(Turn(s, tq).cpu)
  {
    hide AddSeg, Stamps, Quantum, Newcomers;
    FrontReady(s);
    var c, k := s.cpu, s.q[s.f];
    EnterShape(c, k);
    QuantumShape(Enter(c, k), k, tq);
    var t, ran := SwitchTo(c, c.ps[k].pid), Quantum(tq, c.ps[k].remain);
    SwitchStamps(c, c.ps[k].pid);
    ServeStamps(t, k, ran);
    PrevPlaysNoPart(Execute(Enter(c, k), k, ran), c.ps[k].pid);
  }

  lemma RefillStamps(s: Rr)
    requires Sound(s) && Stamps(s.cpu) && NextArrival(s.cpu.ps, s.cpu.now, |s.cpu.ps|) >= 0
    ensures Stamps(Refill(s).cpu)
  {
    hide AddSeg, Stamps, Present;
    var c := s.cpu;
    NextArrivalPending(c.ps, c.now, |c.ps|);
    var arrives := c.ps[NextArrival(c.ps, c.now, |c.ps|)].Arrives();
    OverheadStamps(c, arrives, IDLE);
    PrevPlaysNoPart(IdleUntil(c, arrives), IDLE);
  }

  lemma RrStepStamps(s: Rr, tq: int)
    requires Sound(s) && Stamps(s.cpu) && !Halted(s) && tq >= 1
    ensures Stamps(Step(s, tq).cpu)
  {
    hide Turn, Refill, Stamps;
    StepKinds(s, tq);
    if s.f < |s.q| {
      TurnStamps(s, tq);
    } else {
      RefillStamps(s);
    }
  }

  lemma BeginStamps(ps: seq<Proc>)
    requires FreshTable(ps)
    ensures Sound(Begin(ps)) && Stamps(Begin(ps).cpu)
  {
    hide AddSeg, Stamps, Present;
    BeginComplete(ps);
    BootStamps(ps);
    var nx := NextArrival(ps, -TICKS, |ps|);
    if nx >= 0 && ps[nx].arrival > 0 {
      OverheadStamps(Boot(ps), ps[nx].Arrives(), IDLE);
    }
  }

  lemma {:induction false} RrRunStamps(s: Rr, tq: int)
    requires Sound(s) && Stamps(s.cpu) && tq >= 1
    ensures Stamps(Run(s, tq).cpu)
    decreases Measure(s, tq)
  {
    hide Step, Stamps, Sound;
    SoundFront(s);
    if !Halted(s) {
      StepConsumes(s, tq);
      RrStepStamps(s, tq);
      RrRunStamps(Step(s, tq), tq);
    }
  }

  /** The same on every round-robin run, collisions or not, for whoever has started or is done. */
  lemma RrStamps(ps: seq<Proc>, tq: int, i: nat)
    requires FreshTable(ps) && tq >= 1 && i < |ps|
    ensures Sound(Begin(ps)) && |Run(Begin(ps), tq).cpu.ps| == |ps|
    ensures var c := Run(Begin(ps), tq).cpu;
            && (if c.ps[i].started then StartsOnChart(c.ps[i], c.segs) else Absent(c.segs, c.ps[i].pid))
            && (c.ps[i].done ==> c.ps[i].started && EndsOnChart(c.ps[i], c.segs))
  {
    hide Run, Begin, StartsOnChart, EndsOnChart, Sound;
    BeginStamps(ps);
    BeginTable(ps);
    RunSound(Begin(ps), tq);
    RrRunStamps(Begin(ps), tq);
    var c := Run(Begin(ps), tq).cpu;
    assert Stamped(c.ps[i], c.segs, c.now);
  }

  // ---------------------------------------------------------------- response times

  /** Without preemption: a process that has run ran its burst in one piece, the others have not started. */
  ghost predicate Unbroken(ps: seq<Proc>) {
    forall i :: 0 <= i < |ps| ==>
      if ps[i].done then ps[i].finish == ps[i].firstStart + ps[i].Demand()
      else !ps[i].started && ps[i].remain == ps[i].Demand()
  }

  lemma {:induction false} RunUnbroken(rule: Rule, c: Cpu)
    requires ValidTable(c.ps) && Unbroken(c.ps)
    ensures Unbroken(NP.Run(rule, c).ps) && AllDone(NP.Run(rule, c).ps)
    decreases Unfinished(c.ps)
  {
    hide NP.Step, NP.Chosen;
    if !AllDone(c.ps) {
      NP.StepValid(rule, c);
      StepTable(rule, c);
      RunUnbroken(rule, NP.Step(rule, c));
    }
  }

  lemma {:induction false} SameSum(ps: seq<Proc>)
    requires Unbroken(ps) && AllDone(ps)
    ensures TotalResponse(ps) == TotalWait(ps)
  {
    if ps != [] {
      var init := ps[..|ps| - 1];
      assert forall i :: 0 <= i < |init| ==> init[i] == ps[i];
      SameSum(init);
      assert ps[|ps| - 1].done;
    }
  }

  /** FCFS and SJF: what a process waits, it waits before its first start. */
  lemma ResponseIsWait(rule: Rule, ps: seq<Proc>)
    requires FreshTable(ps)
    ensures TotalResponse(NP.Run(rule, Boot(ps)).ps) == TotalWait(NP.Run(rule, Boot(ps)).ps)
  {
    hide NP.Run;
    FreshUnbroken(ps);
    RunUnbroken(rule, Boot(ps));
    SameSum(NP.Run(rule, Boot(ps)).ps);
  }

  lemma FreshUnbroken(ps: seq<Proc>)
    requires FreshTable(ps)
    ensures Unbroken(ps)
  {
    forall i | 0 <= i < |ps| ensures Fresh(ps[i]) {}
  }

  lemma {:induction false} StampedSum(ps: seq<Proc>, segs: seq<Segment>, now: int)
    requires forall i :: 0 <= i < |ps| ==> Stamped(ps[i], segs, now) && ps[i].done && ps[i].remain == 0
    ensures TotalResponse(ps) <= TotalWait(ps)
  {
    hide StartsOnChart, EndsOnChart, Absent;
    if ps != [] {
      StampedSum(ps[..|ps| - 1], segs, now);
      assert Stamped(ps[|ps| - 1], segs, now);
    }
  }

  lemma DoneSum(c: Cpu)
    requires Stamps(c) && ValidTable(c.ps) && AllDone(c.ps)
    ensures TotalResponse(c.ps) <= TotalWait(c.ps)
  {
    hide Stamped;
    forall i | 0 <= i < |c.ps| ensures c.ps[i].done && c.ps[i].remain == 0 {
      assert ValidProc(c.ps[i]);
    }
    StampedSum(c.ps, c.segs, c.now);
  }

  /** With preemption responses add up to no more than the waiting times. */
  lemma SrtfResponse(ps: seq<Proc>)
    requires FreshTable(ps)
    ensures TotalResponse(SRTF.Run(Boot(ps)).ps) <= TotalWait(SRTF.Run(Boot(ps)).ps)
  {
    hide SRTF.Run, Stamps, Accounted;
    SrtfBoot(ps);
    SrtfRunStamps(Boot(ps));
    BootAccounted(ps);
    SRTF.RunAccounted(Boot(ps));
    TableValid(SRTF.Run(Boot(ps)));
    DoneSum(SRTF.Run(Boot(ps)));
  }

  lemma {:induction false} BoundedSum(ps: seq<Proc>, most: int)
    requires forall i :: 0 <= i < |ps| ==> ps[i].firstStart - ps[i].Arrives() <= most
    ensures TotalResponse(ps) <= |ps| * most
  {
    if ps != [] {
      BoundedSum(ps[..|ps| - 1], most);
      TimesSucc(|ps| - 1, most);
    }
  }

  /** Collision-free round robin: N processes, each within N - 1 full turns, and no more than they wait. */
  lemma RrTotalResponse(ps: seq<Proc>, tq: int)
    requires FreshTable(ps) && tq >= 1
    ensures Sound(Begin(ps))
    ensures CollisionFree(Begin(ps), tq) ==>
              var qs := Run(Begin(ps), tq).cpu.ps;
              && TotalResponse(qs) <= |ps| * ((|ps| - 1) * (TICKS * tq + SWITCH_COST))
              && TotalResponse(qs) <= TotalWait(qs)
  {
    hide Run, Begin, Stamps, CollisionFree, Sound, TotalResponse, TotalWait;
    BeginStamps(ps);
    BeginTable(ps);
    RunSound(Begin(ps), tq);
    var c := Run(Begin(ps), tq).cpu;
    if CollisionFree(Begin(ps), tq) {
      var most := (|ps| - 1) * (TICKS * tq + SWITCH_COST);
      forall i | 0 <= i < |ps| ensures c.ps[i].firstStart - c.ps[i].Arrives() <= most {
        RrResponse(ps, tq, i);
      }
      BoundedSum(c.ps, most);
      RrRunStamps(Begin(ps), tq);
      RrFinishes(ps, tq);
      SoundFront(Run(Begin(ps), tq));
      DoneSum(c);
    }
  }
}

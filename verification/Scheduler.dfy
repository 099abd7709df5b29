/** The simulators over the mutable process table and segment list. */
module Scheduling {
  import opened SchedModel
  import opened SchedPick
  import NP = SchedNonPreemptive
  import SRTF = SchedSrtf
  import RR = SchedRoundRobin
  import Runs = SchedRrRuns
  import Times = SchedRrTimes
  import SchedTimeline
  import SchedSjf
  import Chart = SchedStamps

  class Scheduler {
    const procs: array<Proc>
    var segs: seq<Segment>

    constructor (table: seq<Proc>)
      ensures procs[..] == table && segs == [] && fresh(procs)
    {
      procs := new Proc[|table|](i requires 0 <= i < |table| => table[i]);
      segs := [];
    }

    /** The simulation state: the locals of the running simulator with the shared table and chart. */
    ghost function State(now: int, prev: int): Cpu
      reads this, procs
    {
      Cpu(now, prev, procs[..], segs)
    }

    method AddSegment(start: int, end: int, pid: int)
      modifies this
      ensures segs == AddSeg(old(segs), start, end, pid)
    {
      if end <= start { return; }
      if segs != [] && segs[|segs| - 1].end == start && segs[|segs| - 1].pid == pid {
        segs := segs[|segs| - 1 := segs[|segs| - 1].(end := end)];
        return;
      }
      segs := segs + [Segment(start, end, pid)];
    }

    // -------------------------------------------------------------- scans

    method IsAnyReady(now: int) returns (found: bool)
      ensures found <==> AnyReady(procs[..], now)
    {
      for i := 0 to procs.Length
        invariant forall j :: 0 <= j < i ==> !Ready(procs[j], now)
      {
        if !procs[i].done && procs[i].Arrives() <= now {
          assert Ready(procs[..][i], now);
          return true;
        }
      }
      return false;
    }

    method AreAllDone() returns (all: bool)
      ensures all <==> AllDone(procs[..])
    {
      for i := 0 to procs.Length
        invariant forall j :: 0 <= j < i ==> procs[j].done
      {
        if !procs[i].done {
          assert !procs[..][i].done;
          return false;
        }
      }
      return true;
    }

    method NextArrivalAfter(now: int) returns (found: int)
      ensures found == NextArrival(procs[..], now, procs.Length)
    {
      found := -1;
      for i := 0 to procs.Length
        invariant found == NextArrival(procs[..], now, i)
      {
        if !procs[i].done && procs[i].Arrives() > now {
          if found == -1 || procs[i].arrival < procs[found].arrival {
            found := i;
          }
        }
      }
    }

    method PickFcfs(now: int) returns (best: int)
      ensures best == Pick(Fcfs, procs[..], now, procs.Length)
    {
      best := -1;
      for i := 0 to procs.Length
        invariant best == Pick(Fcfs, procs[..], now, i)
      {
        if !procs[i].done && procs[i].Arrives() <= now {
          if best == -1 {
            best := i;
          } else if procs[i].arrival < procs[best].arrival {
            best := i;
          } else if procs[i].arrival == procs[best].arrival && procs[i].pid < procs[best].pid {
            best := i;
          }
        }
      }
    }

    method PickSjf(now: int) returns (best: int)
      ensures best == Pick(Rule.Sjf, procs[..], now, procs.Length)
    {
      best := -1;
      for i := 0 to procs.Length
        invariant best == Pick(Rule.Sjf, procs[..], now, i)
      {
        if !procs[i].done && procs[i].Arrives() <= now {
          if || best == -1 || procs[i].burst < procs[best].burst
             || (procs[i].burst == procs[best].burst
                 && (procs[i].arrival < procs[best].arrival
                     || (procs[i].arrival == procs[best].arrival && procs[i].pid < procs[best].pid))) {
            best := i;
          }
        }
      }
    }

    method PickSrtf(now: int) returns (best: int)
      ensures best == Pick(Srtf, procs[..], now, procs.Length)
    {
      best := -1;
      for i := 0 to procs.Length
        invariant best == Pick(Srtf, procs[..], now, i)
      {
        if !procs[i].done && procs[i].Arrives() <= now {
          if || best == -1 || procs[i].remain < procs[best].remain
             || (procs[i].remain == procs[best].remain
                 && (procs[i].arrival < procs[best].arrival
                     || (procs[i].arrival == procs[best].arrival && procs[i].pid < procs[best].pid))) {
            best := i;
          }
        }
      }
    }

    // -------------------------------------------------------------- shared parts of the loops

    /** Idle until the next arrival unless somebody is ready. */
    method WaitForWork(now0: int, ghost prev: int) returns (now: int)
      requires !AllDone(procs[..])
      modifies this
      ensures State(now, prev) == WaitForArrival(old(State(now0, prev)))
    {
      now := now0;
      var ready := IsAnyReady(now);
      if !ready {
        var nx := NextArrivalAfter(now);
        NextArrivalExists(procs[..], now);
        AddSegment(now, procs[nx].Arrives(), IDLE);
        now := procs[nx].Arrives();
      }
    }

    method ChargeSwitch(now0: int, prev: int, pid: int) returns (now: int)
      modifies this
      ensures State(now, prev) == SwitchTo(old(State(now0, prev)), pid)
    {
      now := now0;
      if prev != pid && prev != IDLE {
        AddSegment(now, now + SWITCH_COST, SWITCH);
        now := now + SWITCH_COST;
      }
    }

    method NoteFirstStart(now: int, ghost prev: int, k: nat)
      requires k < procs.Length
      modifies procs
      ensures State(now, prev) == NoteStart(old(State(now, prev)), k)
    {
      if !procs[k].started {
        procs[k] := procs[k].(firstStart := now, started := true);
      }
    }

    /** Run process k for `ran` ticks. */
    method Charge(now0: int, ghost prev: int, k: nat, ran: int) returns (now: int)
      requires k < procs.Length
      modifies this, procs
      ensures State(now, prev) == Execute(old(State(now0, prev)), k, ran)
    {
      now := now0 + ran;
      AddSegment(now0, now, procs[k].pid);
      if procs[k].remain - ran <= 0 {
        procs[k] := procs[k].(remain := 0, done := true, finish := now);
      } else {
        procs[k] := procs[k].(remain := procs[k].remain - ran);
      }
    }

    /** Switch to process k and run it to completion. */
    method RunToCompletion(now0: int, prev0: int, k: nat) returns (now: int, prev: int)
      requires k < procs.Length
      modifies this, procs
      ensures State(now, prev) == NP.Dispatch(old(State(now0, prev0)), k)
    {
      now := ChargeSwitch(now0, prev0, procs[k].pid);
      NoteFirstStart(now, prev0, k);
      now := Charge(now, prev0, k, procs[k].remain);
      prev := procs[k].pid;
    }

    // -------------------------------------------------------------- FCFS and SJF

    method SimulateFcfs() returns (now: int, prev: int)
      requires FreshTable(procs[..]) && segs == []
      modifies this, procs
      ensures State(now, prev) == NP.Run(Fcfs, Boot(old(procs[..])))
      ensures AllDone(procs[..]) && AtLoop(State(now, prev)) && Chart.Stamps(State(now, prev))
    {
      hide NP.Dispatch, WaitForArrival, Pick, Accounted, Chart.Stamps;
      now, prev := 0, IDLE;
      BootAccounted(procs[..]);
      Chart.BootStamps(procs[..]);
      Chart.RunStamps(Fcfs, Boot(procs[..]));
      var all := AreAllDone();
      while !all
        invariant AtLoop(State(now, prev)) && ValidTable(procs[..])
        invariant NP.Run(Fcfs, State(now, prev)) == NP.Run(Fcfs, Boot(old(procs[..])))
        invariant all <==> AllDone(procs[..])
        decreases Unfinished(procs[..])
      {
        ghost var c := State(now, prev);
        NP.StepValid(Fcfs, c);
        NP.StepAccounted(Fcfs, c);
        now := WaitForWork(now, prev);
        PickExists(Fcfs, procs[..], now);
        var k := PickFcfs(now);
        now, prev := RunToCompletion(now, prev, k);
        assert State(now, prev) == NP.Step(Fcfs, c);
        all := AreAllDone();
      }
    }

    method SimulateSjf() returns (now: int, prev: int)
      requires FreshTable(procs[..]) && segs == []
      modifies this, procs
      ensures State(now, prev) == NP.Run(Rule.Sjf, Boot(old(procs[..])))
      ensures AllDone(procs[..]) && AtLoop(State(now, prev)) && Chart.Stamps(State(now, prev))
    {
      hide NP.Dispatch, WaitForArrival, Pick, Accounted, Chart.Stamps;
      now, prev := 0, IDLE;
      BootAccounted(procs[..]);
      Chart.BootStamps(procs[..]);
      Chart.RunStamps(Rule.Sjf, Boot(procs[..]));
      var all := AreAllDone();
      while !all
        invariant AtLoop(State(now, prev)) && ValidTable(procs[..])
        invariant NP.Run(Rule.Sjf, State(now, prev)) == NP.Run(Rule.Sjf, Boot(old(procs[..])))
        invariant all <==> AllDone(procs[..])
        decreases Unfinished(procs[..])
      {
        ghost var c := State(now, prev);
        NP.StepValid(Rule.Sjf, c);
        NP.StepAccounted(Rule.Sjf, c);
        now := WaitForWork(now, prev);
        PickExists(Rule.Sjf, procs[..], now);
        var k := PickSjf(now);
        now, prev := RunToCompletion(now, prev, k);
        assert State(now, prev) == NP.Step(Rule.Sjf, c);
        all := AreAllDone();
      }
    }

    // -------------------------------------------------------------- SRTF

    /** Give the CPU to process k; an unchanged owner neither switches nor starts. */
    method ResumeProcess(now0: int, running: int, k: nat) returns (now: int)
      requires k < procs.Length
      modifies this, procs
      ensures State(now, running) == SRTF.Resume(old(State(now0, running)), k)
    {
      now := now0;
      if running != procs[k].pid {
        now := ChargeSwitch(now, running, procs[k].pid);
        NoteFirstStart(now, running, k);
      }
    }

    /** Run process k until it ends or somebody arrives. */
    method RunUntilEvent(now0: int, running0: int, k: nat) returns (now: int, running: int)
      requires k < procs.Length
      modifies this, procs
      ensures State(now, running) == SRTF.RunSlice(old(State(now0, running0)), k)
    {
      var nx := NextArrivalAfter(now0);
      var nextEvent := now0 + procs[k].remain;
      if nx >= 0 && procs[nx].Arrives() < nextEvent {
        nextEvent := procs[nx].Arrives();
      }
      now := Charge(now0, running0, k, nextEvent - now0);
      running := if procs[k].done then IDLE else procs[k].pid;
    }

    method SimulateSrtf() returns (now: int, running: int, ghost iterations: nat)
      requires FreshTable(procs[..]) && segs == []
      modifies this, procs
      ensures State(now, running) == SRTF.Run(Boot(old(procs[..])))
      ensures AllDone(procs[..]) && AtLoop(State(now, running)) && Chart.Stamps(State(now, running))
      ensures iterations == SRTF.Iterations(Boot(old(procs[..])))
      ensures procs.Length > 0 ==> iterations <= 2 * procs.Length - 1 && Switches(segs) <= procs.Length - 1
    {
      hide SRTF.Resume, SRTF.RunSlice, WaitForArrival, Pick, Accounted, Switches, Chart.Stamps;
      now, running, iterations := 0, IDLE, 0;
      BootAccounted(procs[..]);
      Chart.SrtfBoot(procs[..]);
      Chart.SrtfRunStamps(Boot(procs[..]));
      var all := AreAllDone();
      while !all
        invariant AtLoop(State(now, running)) && ValidTable(procs[..])
        invariant SRTF.Run(State(now, running)) == SRTF.Run(Boot(old(procs[..])))
        invariant iterations + SRTF.Iterations(State(now, running)) == SRTF.Iterations(Boot(old(procs[..])))
        invariant all <==> AllDone(procs[..])
        decreases SRTF.Measure(State(now, running))
      {
        ghost var c := State(now, running);
        SRTF.StepConsumes(c);
        SRTF.StepAccounted(c);
        now := WaitForWork(now, running);
        PickExists(Srtf, procs[..], now);
        var k := PickSrtf(now);
        now := ResumeProcess(now, running, k);
        now, running := RunUntilEvent(now, running, k);
        assert State(now, running) == SRTF.Step(c);
        iterations := iterations + 1;
        all := AreAllDone();
      }
      if procs.Length > 0 {
        SRTF.SrtfIterations(old(procs[..]));
        SRTF.SrtfSwitches(old(procs[..]));
      }
    }

    // -------------------------------------------------------------- round robin

    /** Push every unfinished process that has arrived. */
    method EnqueuePresent(q0: seq<int>, now: int) returns (q: seq<int>)
      ensures q == q0 + RR.Present(procs[..], now, procs.Length)
    {
      q := q0;
      for i := 0 to procs.Length
        invariant q == q0 + RR.Present(procs[..], now, i)
      {
        if !procs[i].done && procs[i].Arrives() <= now {
          q := q + [i];
        }
      }
    }

    /** Push the unfinished processes that arrive in (start, end]. */
    method EnqueueArrivals(q0: seq<int>, start: int, end: int) returns (q: seq<int>)
      ensures q == q0 + RR.Newcomers(procs[..], start, end, procs.Length)
    {
      q := q0;
      for i := 0 to procs.Length
        invariant q == q0 + RR.Newcomers(procs[..], start, end, i)
      {
        if !procs[i].done && start < procs[i].Arrives() && procs[i].Arrives() <= end {
          q := q + [i];
        }
      }
    }

    /** Fill the initial idle time and push whoever is there. */
    method BeginRr() returns (now: int, q: seq<int>)
      requires FreshTable(procs[..]) && segs == []
      modifies this
      ensures RR.Rr(State(now, IDLE), q, 0) == RR.Begin(procs[..])
    {
      now := 0;
      var nx := NextArrivalAfter(-TICKS);
      if nx >= 0 && procs[nx].arrival > 0 {
        AddSegment(0, procs[nx].Arrives(), IDLE);
        now := procs[nx].Arrives();
      }
      q := EnqueuePresent([], now);
    }

    /** Serve the process at the front for one quantum. */
    method TakeTurn(now0: int, prev0: int, q0: seq<int>, ghost f: nat, k: nat, tq: int)
      returns (now: int, prev: int, q: seq<int>)
      requires RR.Valid(RR.Rr(State(now0, prev0), q0, f)) && f < |q0| && k == q0[f]
      modifies this, procs
      ensures RR.Rr(State(now, prev), q, f + 1) == RR.Turn(old(RR.Rr(State(now0, prev0), q0, f)), tq)
    {
      now := ChargeSwitch(now0, prev0, procs[k].pid);
      NoteFirstStart(now, prev0, k);
      ghost var r := State(now, prev0);
      var runFor := if TICKS * tq < procs[k].remain then TICKS * tq else procs[k].remain;
      q := EnqueueArrivals(q0, now, now + runFor);
      now := Charge(now, prev0, k, runFor);
      if !procs[k].done {
        q := q + [k];
      }
      prev := procs[k].pid;
    }

    method SimulateRr(tq: int) returns (now: int, prev: int, q: seq<int>, f: nat)
      requires FreshTable(procs[..]) && segs == [] && tq >= 1
      modifies this, procs
      ensures RR.Sound(RR.Begin(old(procs[..])))
      ensures RR.Rr(State(now, prev), q, f) == Runs.Run(RR.Begin(old(procs[..])), tq)
      ensures Accounted(State(now, prev)) && Chart.Stamps(State(now, prev))
      ensures |q| <= Runs.AllTurns(old(procs[..]), tq)
      ensures Runs.CollisionFree(RR.Begin(old(procs[..])), tq) ==>
                AllDone(procs[..]) && |q| == f == Runs.AllTurns(old(procs[..]), tq)
    {
      hide RR.Turn, RR.Refill, RR.Sound, Accounted, Runs.AllTurns, Runs.CollisionFree, RR.Begin, Chart.Stamps;
      ghost var first := RR.Begin(procs[..]);
      Times.BeginBalanced(procs[..]);
      Runs.BeginTable(procs[..]);
      Runs.PushesBounded(first, tq);
      Runs.RrFinishes(procs[..], tq);
      Times.RunBalanced(first, tq);
      Chart.BeginStamps(procs[..]);
      Chart.RrRunStamps(first, tq);
      now, q := BeginRr();
      f, prev := 0, IDLE;
      var all := AreAllDone();
      while !all
        invariant RR.Sound(RR.Rr(State(now, prev), q, f)) && f <= |q|
        invariant Runs.Run(RR.Rr(State(now, prev), q, f), tq) == Runs.Run(first, tq)
        invariant all <==> AllDone(procs[..])
        decreases Runs.Measure(RR.Rr(State(now, prev), q, f), tq)
      {
        ghost var s := RR.Rr(State(now, prev), q, f);
        Runs.SoundFront(s);
        if f == |q| {
          var j := NextArrivalAfter(now);
          if j < 0 { break; }
          Runs.StepConsumes(s, tq);
          Runs.StepKinds(s, tq);
          now, prev, q := Refill(now, prev, q, f, j);
        } else {
          Runs.StepConsumes(s, tq);
          Runs.StepKinds(s, tq);
          var k := q[f];
          if !procs[k].done {
            now, prev, q := TakeTurn(now, prev, q, f, k, tq);
          }
          f := f + 1;
        }
        assert RR.Rr(State(now, prev), q, f) == RR.Step(s, tq);
        Runs.SoundFront(RR.Rr(State(now, prev), q, f));
        all := AreAllDone();
      }
    }

    /** Empty queue: idle until process j arrives and push whoever is there. */
    method Refill(now0: int, ghost prev0: int, q0: seq<int>, ghost f: nat, j: int)
      returns (now: int, prev: int, q: seq<int>)
      requires j == NextArrival(procs[..], now0, procs.Length) && j >= 0
      modifies this
      ensures RR.Rr(State(now, prev), q, f) == RR.Refill(old(RR.Rr(State(now0, prev0), q0, f)))
    {
      AddSegment(now0, procs[j].Arrives(), IDLE);
      now := procs[j].Arrives();
      prev := IDLE;
      q := EnqueuePresent(q0, now);
    }

    // -------------------------------------------------------------- statistics

    /** The sums behind the printed averages. */
    method Statistics() returns (sumWait: int, sumResp: int, sumTurn: int, sumBurst: int, finishMax: int)
      ensures sumWait == SchedSjf.TotalWait(procs[..])
      ensures sumResp == SchedTimeline.TotalResponse(procs[..])
      ensures sumBurst == SchedTimeline.TotalDemand(procs[..]) && sumTurn == sumWait + sumBurst
      ensures finishMax == SchedTimeline.FinishMax(procs[..])
    {
      sumWait, sumResp, sumTurn, sumBurst, finishMax := 0, 0, 0, 0, 0;
      for i := 0 to procs.Length
        invariant sumWait == SchedSjf.TotalWait(procs[..i])
        invariant sumResp == SchedTimeline.TotalResponse(procs[..i])
        invariant sumBurst == SchedTimeline.TotalDemand(procs[..i]) && sumTurn == sumWait + sumBurst
        invariant finishMax == SchedTimeline.FinishMax(procs[..i])
      {
        var p := procs[i];
        assert procs[..i + 1][..i] == procs[..i];
        sumWait := sumWait + (p.finish - p.Arrives() - p.Demand());
        sumResp := sumResp + (p.firstStart - p.Arrives());
        sumTurn := sumTurn + (p.finish - p.Arrives());
        sumBurst := sumBurst + p.Demand();
        if p.finish > finishMax {
          finishMax := p.finish;
        }
      }
      assert procs[..procs.Length] == procs[..];
    }
  }
}

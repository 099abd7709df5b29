/** Round robin over whole runs. */
module SchedRrRuns {
  import opened Sets
  import opened SchedModel
  import opened SchedPick
  import opened SchedRoundRobin

  // ---------------------------------------------------------------- turns

  /** Turns of tq milliseconds needed for `remain` ticks. */
  function Turns(remain: int, tq: int): nat
    requires tq >= 1
    decreases remain
  {
    if remain <= 0 then 0 else 1 + Turns(remain - TICKS * tq, tq)
  }

  /** It is the quotient rounded up. */
  lemma {:induction false} TurnsRoundUp(remain: int, tq: int)
    requires tq >= 1 && remain >= 0
    ensures remain <= Turns(remain, tq) * (TICKS * tq) < remain + TICKS * tq
    decreases remain
  {
    if remain > TICKS * tq {
      TurnsRoundUp(remain - TICKS * tq, tq);
      TimesSucc(Turns(remain - TICKS * tq, tq), TICKS * tq);
    } else if remain > 0 {
      assert Turns(remain - TICKS * tq, tq) == 0;
    }
  }

  lemma TimesSucc(n: nat, m: int)
    ensures (1 + n) * m == n * m + m
  {}

  function AllTurns(ps: seq<Proc>, tq: int): nat
    requires tq >= 1
  {
    if ps == [] then 0 else AllTurns(ps[..|ps| - 1], tq) + Turns(ps[|ps| - 1].remain, tq)
  }

  lemma {:induction false} AllTurnsUpdate(ps: seq<Proc>, tq: int, k: nat, p: Proc)
    requires tq >= 1 && k < |ps|
    ensures AllTurns(ps[k := p], tq) == AllTurns(ps, tq) - Turns(ps[k].remain, tq) + Turns(p.remain, tq)
  {
    hide Turns;
    var n := |ps| - 1;
    if k < n {
      AllTurnsUpdate(ps[..n], tq, k, p);
      assert ps[k := p][..n] == ps[..n][k := p];
    } else {
      assert ps[k := p][..n] == ps[..n];
    }
  }

  lemma {:induction false} UnfinishedTurns(ps: seq<Proc>, tq: int)
    requires tq >= 1 && forall i :: 0 <= i < |ps| ==> ValidProc(ps[i])
    ensures Unfinished(ps) <= AllTurns(ps, tq)
    ensures AllDone(ps) ==> AllTurns(ps, tq) == 0
  {
    if ps != [] {
      assert ValidProc(ps[|ps| - 1]);
      UnfinishedTurns(ps[..|ps| - 1], tq);
    }
  }

  lemma TurnTakesOne(s: Rr, tq: int)
    requires Sound(s) && s.f < |s.q| && tq >= 1
    ensures AllTurns(Turn(s, tq).cpu.ps, tq) + 1 == AllTurns(s.cpu.ps, tq)
    ensures Awaited(Turn(s, tq).cpu.ps, Turn(s, tq).cpu.now) <= Awaited(s.cpu.ps, s.cpu.now)
  {
    hide Turn, AllTurns, Awaited;
    FrontReady(s);
    var k, c, t := s.q[s.f], s.cpu, Turn(s, tq);
    var news := TurnShape(s, tq);
    AllTurnsUpdate(c.ps, tq, k, t.cpu.ps[k]);
    AwaitedUpdate(c.ps, c.now, k, t.cpu.ps[k]);
    AwaitedLater(t.cpu.ps, c.now, t.cpu.now);
  }

  // ---------------------------------------------------------------- steps

  /** A sound queue never holds a finished process, so each step is a refill or a turn. */
  lemma StepKinds(s: Rr, tq: int)
    requires Sound(s) && !Halted(s) && tq >= 1
    ensures s.f == |s.q| ==> NextArrival(s.cpu.ps, s.cpu.now, |s.cpu.ps|) >= 0 && Step(s, tq) == Refill(s)
    ensures s.f < |s.q| ==> Step(s, tq) == Turn(s, tq)
    ensures Sound(Step(s, tq)) && |Step(s, tq).cpu.ps| == |s.cpu.ps|
  {
    hide Turn, Refill, Queue;
    if s.f < |s.q| {
      FrontReady(s);
      TurnSound(s, tq);
      var news := TurnShape(s, tq);
    } else {
      RefillComplete(s);
      RefillTable(s);
    }
  }

  lemma RefillTable(s: Rr)
    requires NextArrival(s.cpu.ps, s.cpu.now, |s.cpu.ps|) >= 0
    ensures Refill(s).cpu.ps == s.cpu.ps && Refill(s).f == s.f && Refill(s).cpu.prev == IDLE
    ensures Refill(s).cpu.now > s.cpu.now
    ensures Awaited(s.cpu.ps, Refill(s).cpu.now) < Awaited(s.cpu.ps, s.cpu.now)
  {
    var ps := s.cpu.ps;
    var nx := NextArrival(ps, s.cpu.now, |ps|);
    NextArrivalPending(ps, s.cpu.now, |ps|);
    AwaitedLater(ps, s.cpu.now, ps[nx].Arrives());
  }

  /** Turns still to be taken and arrivals still to come. */
  function Measure(s: Rr, tq: int): nat
    requires tq >= 1
  {
    AllTurns(s.cpu.ps, tq) + Awaited(s.cpu.ps, s.cpu.now)
  }

  lemma StepConsumes(s: Rr, tq: int)
    requires Sound(s) && !Halted(s) && tq >= 1
    ensures Sound(Step(s, tq)) && Measure(Step(s, tq), tq) < Measure(s, tq)
    ensures Step(s, tq).f + AllTurns(Step(s, tq).cpu.ps, tq) == s.f + AllTurns(s.cpu.ps, tq)
  {
    hide Step, Turn, Refill, AllTurns, Awaited, Queue, Sound;
    StepKinds(s, tq);
    SoundFront(s);
    if s.f < |s.q| {
      TurnTakesOne(s, tq);
      var news := TurnShape(s, tq);
    } else {
      RefillTable(s);
    }
  }

  lemma SoundFront(s: Rr)
    requires Sound(s)
    ensures Valid(s)
    ensures s.f < |s.q| ==> !s.cpu.ps[s.q[s.f]].done
  {
    if s.f < |s.q| {
      FrontReady(s);
    }
  }

  /** The whole simulation. */
  function Run(s: Rr, tq: int): (r: Rr)
    requires Sound(s) && tq >= 1
    decreases Measure(s, tq)
  {
    if Halted(s) then s
    else
      StepConsumes(s, tq);
      Run(Step(s, tq), tq)
  }

  lemma {:induction false} RunSound(s: Rr, tq: int)
    requires Sound(s) && tq >= 1
    ensures Sound(Run(s, tq)) && Halted(Run(s, tq)) && |Run(s, tq).cpu.ps| == |s.cpu.ps|
    ensures Run(s, tq).f + AllTurns(Run(s, tq).cpu.ps, tq) == s.f + AllTurns(s.cpu.ps, tq)
    decreases Measure(s, tq)
  {
    hide Step, Sound, AllTurns;
    SoundFront(s);
    if !Halted(s) {
      StepConsumes(s, tq);
      StepKinds(s, tq);
      RunSound(Step(s, tq), tq);
    }
  }

  // ---------------------------------------------------------------- nobody is missed

  /** No turn of the run begins with a collision. */
  ghost predicate CollisionFree(s: Rr, tq: int)
    requires Sound(s) && tq >= 1
    decreases Measure(s, tq)
  {
    Halted(s) || (!Collision(s) && (StepConsumes(s, tq); CollisionFree(Step(s, tq), tq)))
  }

  /** At every iteration all unfinished processes that have arrived are queued, each once. */
  ghost predicate AlwaysComplete(s: Rr, tq: int)
    requires Sound(s) && tq >= 1
    decreases Measure(s, tq)
  {
    Complete(s) && (Halted(s) || (StepConsumes(s, tq); AlwaysComplete(Step(s, tq), tq)))
  }

  lemma StepComplete(s: Rr, tq: int)
    requires Complete(s) && !Halted(s) && tq >= 1
    ensures Complete(Step(s, tq)) <==> !Collision(s)
  {
    hide Turn, Refill, Queue;
    StepKinds(s, tq);
    if s.f < |s.q| {
      TurnComplete(s, tq);
    } else {
      RefillComplete(s);
    }
  }

  /** Nobody is ever missed if and only if no process arrives at the very end of a switch. */
  lemma {:induction false} MissedIffCollision(s: Rr, tq: int)
    requires Complete(s) && tq >= 1
    ensures AlwaysComplete(s, tq) <==> CollisionFree(s, tq)
    decreases Measure(s, tq)
  {
    hide Step, Collision;
    if !Halted(s) {
      StepConsumes(s, tq);
      StepComplete(s, tq);
      if !Collision(s) {
        MissedIffCollision(Step(s, tq), tq);
      } else {
        MissingShows(Step(s, tq), tq);
      }
    }
  }

  lemma MissingShows(s: Rr, tq: int)
    requires Sound(s) && !Complete(s) && tq >= 1
    ensures !AlwaysComplete(s, tq)
  {}

  /** A complete queue that runs dry with nobody to come means all is done. */
  lemma HaltedComplete(s: Rr)
    requires Complete(s) && Halted(s)
    ensures AllDone(s.cpu.ps) && s.f == |s.q|
  {
    var ps, now := s.cpu.ps, s.cpu.now;
    if !AllDone(ps) {
      assert Queue(s) == [];
      var i :| 0 <= i < |ps| && !ps[i].done;
      assert !Ready(ps[i], now);
      NextArrivalFirst(ps, now, |ps|, i);
    }
    if s.f < |s.q| {
      FrontReady(s);
    }
  }

  lemma {:induction false} RunComplete(s: Rr, tq: int)
    requires Sound(s) && tq >= 1 && AlwaysComplete(s, tq)
    ensures Complete(Run(s, tq)) && Halted(Run(s, tq))
    decreases Measure(s, tq)
  {
    hide Step, Complete;
    if !Halted(s) {
      StepConsumes(s, tq);
      RunComplete(Step(s, tq), tq);
    }
  }

  /** A collision-free run finishes everything, with exactly the turns the bursts call for. */
  lemma RrFinishes(ps: seq<Proc>, tq: int)
    requires FreshTable(ps) && tq >= 1
    ensures Complete(Begin(ps))
    ensures CollisionFree(Begin(ps), tq) ==>
              && AllDone(Run(Begin(ps), tq).cpu.ps)
              && |Run(Begin(ps), tq).q| == Run(Begin(ps), tq).f == AllTurns(ps, tq)
  {
    hide Run, Begin, AllTurns, Sound, Complete;
    BeginComplete(ps);
    BeginTable(ps);
    CompleteSound(Begin(ps));
    var s := Begin(ps);
    if CollisionFree(s, tq) {
      MissedIffCollision(s, tq);
      RunComplete(s, tq);
      RunSound(s, tq);
      HaltedComplete(Run(s, tq));
      SoundFront(Run(s, tq));
      UnfinishedTurns(Run(s, tq).cpu.ps, tq);
    }
  }

  lemma CompleteSound(s: Rr)
    requires Complete(s)
    ensures Sound(s)
  {}

  lemma BeginTable(ps: seq<Proc>)
    ensures Begin(ps).cpu.ps == ps && Begin(ps).f == 0 && Begin(ps).cpu.prev == IDLE
  {}

  // ---------------------------------------------------------------- when everything finishes

  /** The queue runs empty, with somebody still to come, at some point of the run. */
  ghost predicate RefillsLater(s: Rr, tq: int)
    requires Sound(s) && tq >= 1
    decreases Measure(s, tq)
  {
    !Halted(s) && (s.f == |s.q| || (StepConsumes(s, tq); RefillsLater(Step(s, tq), tq)))
  }

  /** Whenever a process is missed, the queue is refilled later in the run. */
  ghost predicate AlwaysRescued(s: Rr, tq: int)
    requires Sound(s) && tq >= 1
    decreases Measure(s, tq)
  {
    Halted(s) ||
    (StepConsumes(s, tq);
     && AlwaysRescued(Step(s, tq), tq)
     && (Collision(s) ==> RefillsLater(Step(s, tq), tq)))
  }

  /** A missed process stays missed through every turn. */
  lemma MissedStays(s: Rr, tq: int)
    requires Sound(s) && !Complete(s) && s.f < |s.q| && tq >= 1
    ensures !Complete(Turn(s, tq))
  {
    hide Turn, Queue;
    FrontReady(s);
    var k, c, t := s.q[s.f], s.cpu, Turn(s, tq);
    var i :| 0 <= i < |c.ps| && Ready(c.ps[i], c.now) && i !in Queue(s);
    var news0 := TurnShape(s, tq);
    var news := TurnQueue(s, tq);
    assert i != k && i !in news;
    assert Ready(t.cpu.ps[i], t.cpu.now) && i !in Queue(t);
  }

  lemma HaltedIncomplete(s: Rr)
    requires Sound(s) && !Complete(s)
    ensures !AllDone(s.cpu.ps)
  {}

  /** Exactly then does the run finish every process. */
  lemma {:induction false} FinishesIffRescued(s: Rr, tq: int)
    requires Sound(s) && tq >= 1
    ensures AllDone(Run(s, tq).cpu.ps) <==> AlwaysRescued(s, tq) && (Complete(s) || RefillsLater(s, tq))
    decreases Measure(s, tq)
  {
    hide Step, Turn, Refill, Collision, Complete, Sound;
    SoundFront(s);
    if Halted(s) {
      if Complete(s) {
        HaltedComplete(s);
      } else {
        HaltedIncomplete(s);
      }
    } else {
      StepConsumes(s, tq);
      StepKinds(s, tq);
      FinishesIffRescued(Step(s, tq), tq);
      if s.f == |s.q| {
        RefillComplete(s);
        NoCollisionWhenEmpty(s);
      } else if Complete(s) {
        TurnComplete(s, tq);
      } else {
        MissedStays(s, tq);
      }
    }
  }

  lemma NoCollisionWhenEmpty(s: Rr)
    requires Valid(s) && s.f == |s.q|
    ensures !Collision(s)
  {}

  /** Round robin finishes every process if and only if each missed arrival is followed by an idle refill. */
  lemma RrFinishesIff(ps: seq<Proc>, tq: int)
    requires FreshTable(ps) && tq >= 1
    ensures Sound(Begin(ps))
    ensures AllDone(Run(Begin(ps), tq).cpu.ps) <==> AlwaysRescued(Begin(ps), tq)
  {
    hide Run, Begin;
    BeginComplete(ps);
    FinishesIffRescued(Begin(ps), tq);
  }

  // ---------------------------------------------------------------- size of the queue array

  lemma {:induction false} PresentUnfinished(ps: seq<Proc>, now: int, n: nat)
    requires n <= |ps|
    ensures |Present(ps, now, n)| <= Unfinished(ps[..n])
  {
    if n > 0 {
      PresentUnfinished(ps, now, n - 1);
      assert ps[..n][..n - 1] == ps[..n - 1];
    }
  }

  lemma QueueSize(s: Rr, tq: int)
    requires Sound(s) && tq >= 1
    ensures |Queue(s)| <= Unfinished(s.cpu.ps) <= AllTurns(s.cpu.ps, tq)
    ensures |Queue(s)| <= |s.cpu.ps|
  {
    hide AllTurns;
    var ps, now := s.cpu.ps, s.cpu.now;
    var present := Present(ps, now, |ps|);
    PresentExact(ps, now, |ps|);
    PresentUnfinished(ps, now, |ps|);
    assert ps[..|ps|] == ps;
    ElemsCard(Queue(s));
    ElemsCard(present);
    SubsetCard(Elems(Queue(s)), Elems(present));
    UnfinishedTurns(ps, tq);
    UnfinishedBound(ps);
  }

  /** On every run, collisions or not, the pushes never exceed the turns the bursts call for. */
  lemma {:induction false} PushesBounded(s: Rr, tq: int)
    requires Sound(s) && tq >= 1
    ensures Sound(Run(s, tq)) && |Run(s, tq).q| <= s.f + AllTurns(s.cpu.ps, tq)
  {
    hide Run, AllTurns;
    RunSound(s, tq);
    QueueSize(Run(s, tq), tq);
  }
}

/** Round robin: accounts, waiting times and where collisions can fall. */
module SchedRrTimes {
  import opened Sets
  import opened SchedModel
  import opened SchedPick
  import opened SchedRoundRobin
  import opened SchedRrRuns

  // ---------------------------------------------------------------- accounting

  /** Every tick so far is on the chart. */
  ghost predicate Balanced(s: Rr) {
    Sound(s) && Accounted(s.cpu) && !EndsWith(s.cpu.segs, SWITCH)
  }

  lemma EnterAccounted(c: Cpu, k: nat)
    requires k < |c.ps| && Accounted(c) && !EndsWith(c.segs, SWITCH)
    ensures Accounted(Enter(c, k))
  {
    hide Accounted;
    SwitchAccounted(c, c.ps[k].pid);
    StartAccounted(SwitchTo(c, c.ps[k].pid), k);
  }

  lemma TurnAccounted(s: Rr, tq: int)
    requires Balanced(s) && s.f < |s.q| && tq >= 1
    ensures Accounted(Turn(s, tq).cpu) && !EndsWith(Turn(s, tq).cpu.segs, SWITCH)
  {
    hide Accounted, Enter, Quantum, AddSeg;
    FrontReady(s);
    var c, k := s.cpu, s.q[s.f];
    var r := Enter(c, k);
    EnterAccounted(c, k);
    EnterShape(c, k);
    QuantumShape(r, k, tq);
    RunsFully(c, k);
    var ran := Quantum(tq, r.ps[k].remain);
    ExecuteAccounted(r, k, ran);
    PrevAside(Execute(r, k, ran), r.ps[k].pid);
  }

  lemma RefillAccounted(s: Rr)
    requires Balanced(s) && s.f == |s.q| && NextArrival(s.cpu.ps, s.cpu.now, |s.cpu.ps|) >= 0
    ensures Accounted(Refill(s).cpu) && !EndsWith(Refill(s).cpu.segs, SWITCH)
  {
    hide Accounted, AddSeg;
    var c := s.cpu;
    NextArrivalPending(c.ps, c.now, |c.ps|);
    var arrives := c.ps[NextArrival(c.ps, c.now, |c.ps|)].Arrives();
    IdleAccounted(c, arrives);
    PrevAside(IdleUntil(c, arrives), IDLE);
  }

  lemma BeginBalanced(ps: seq<Proc>)
    requires FreshTable(ps)
    ensures Balanced(Begin(ps))
  {
    hide Accounted, AddSeg;
    BeginComplete(ps);
    BootAccounted(ps);
    var nx := NextArrival(ps, -TICKS, |ps|);
    if nx >= 0 && ps[nx].arrival > 0 {
      IdleAccounted(Boot(ps), ps[nx].Arrives());
    }
  }

  lemma StepBalanced(s: Rr, tq: int)
    requires Balanced(s) && !Halted(s) && tq >= 1
    ensures Balanced(Step(s, tq))
  {
    hide Turn, Refill, Accounted;
    StepKinds(s, tq);
    if s.f < |s.q| {
      TurnAccounted(s, tq);
    } else {
      RefillAccounted(s);
    }
  }

  /** The accounts balance on every run, with or without collisions. */
  lemma {:induction false} RunBalanced(s: Rr, tq: int)
    requires Balanced(s) && tq >= 1
    ensures Balanced(Run(s, tq)) && Halted(Run(s, tq))
    decreases Measure(s, tq)
  {
    hide Step, Accounted, Sound;
    SoundFront(s);
    if !Halted(s) {
      StepConsumes(s, tq);
      StepBalanced(s, tq);
      RunBalanced(Step(s, tq), tq);
    }
  }

  // ---------------------------------------------------------------- waiting

  /** p full turns, each with its switch. */
  function Spread(p: nat, tq: int): int {
    if p == 0 then 0 else Spread(p - 1, tq) + TICKS * tq + SWITCH_COST
  }

  lemma {:induction false} SpreadIs(p: nat, tq: int)
    ensures Spread(p, tq) == p * (TICKS * tq + SWITCH_COST)
  {
    if p > 0 {
      SpreadIs(p - 1, tq);
      TimesSucc(p - 1, TICKS * tq + SWITCH_COST);
    }
  }

  lemma {:induction false} SpreadGrows(p: nat, r: nat, tq: int)
    requires p <= r && tq >= 0
    ensures Spread(p, tq) <= Spread(r, tq)
    decreases r
  {
    if p < r {
      SpreadGrows(p, r - 1, tq);
    }
  }

  /** The switch the next turn may have to pay. */
  function SwitchDue(c: Cpu): int {
    if c.prev == IDLE then 0 else SWITCH_COST
  }

  lemma SwitchDueEnough(c: Cpu, k: nat)
    requires k < |c.ps|
    ensures 0 <= SwitchTicks(c, k) <= SwitchDue(c)
  {}

  /** The clock after a turn, and the switch then due, are within one full turn of before. */
  lemma TurnLength(s: Rr, tq: int)
    requires Sound(s) && s.f < |s.q| && tq >= 1
    ensures var t := Turn(s, tq).cpu;
            t.now + SwitchDue(t) <= s.cpu.now + SwitchDue(s.cpu) + TICKS * tq + SWITCH_COST
  {
    hide Turn;
    FrontReady(s);
    var news := TurnShape(s, tq);
    SwitchDueEnough(s.cpu, s.q[s.f]);
  }

  /** The loop after n iterations, or fewer if it stops. */
  function Iterate(s: Rr, tq: int, n: nat): Rr
    requires Sound(s) && tq >= 1
    decreases n
  {
    if n == 0 || Halted(s) then s
    else
      StepConsumes(s, tq);
      Iterate(Step(s, tq), tq, n - 1)
  }

  lemma QueueNotHalted(s: Rr)
    requires Sound(s) && s.f < |s.q|
    ensures !Halted(s)
  {
    FrontReady(s);
  }

  /**
   A queued process is dispatched after at most one full turn for each one
   ahead of it, and fewer than N are; nothing can overtake it.
   */
  lemma {:induction false} QueueWait(s: Rr, tq: int, p: nat)
    requires Sound(s) && tq >= 1 && p < |Queue(s)|
    ensures p < |s.cpu.ps|
    ensures var t := Iterate(s, tq, p);
            && Sound(t) && t.f < |t.q| && t.q[t.f] == Queue(s)[p]
            && t.cpu.now + SwitchTicks(t.cpu, t.q[t.f]) <= s.cpu.now + SwitchDue(s.cpu) + Spread(p, tq)
    decreases p
  {
    hide Step, Turn, Queue, AllTurns;
    QueueSize(s, tq);
    QueueFront(s);
    if p == 0 {
      SwitchDueEnough(s.cpu, s.q[s.f]);
    } else {
      QueueNotHalted(s);
      StepKinds(s, tq);
      var news := TurnQueue(s, tq);
      TurnLength(s, tq);
      QueueWait(Step(s, tq), tq, p - 1);
    }
  }

  /** So from any iteration at which it is queued it waits at most N - 1 full turns and one switch. */
  lemma RrWait(s: Rr, tq: int, p: nat)
    requires Sound(s) && tq >= 1 && p < |Queue(s)|
    ensures var t := Iterate(s, tq, p);
            && Sound(t) && t.f < |t.q| && t.q[t.f] == Queue(s)[p]
            && t.cpu.now + SwitchTicks(t.cpu, t.q[t.f]) - s.cpu.now
               <= (|s.cpu.ps| - 1) * (TICKS * tq + SWITCH_COST) + SWITCH_COST
  {
    hide Iterate, Queue;
    QueueWait(s, tq, p);
    SpreadGrows(p, |s.cpu.ps| - 1, tq);
    SpreadIs(|s.cpu.ps| - 1, tq);
  }

  lemma QueueFront(s: Rr)
    requires Sound(s)
    ensures s.f < |s.q| <==> Queue(s) != []
    ensures s.f < |s.q| ==> Queue(s)[0] == s.q[s.f] && 0 <= s.q[s.f] < |s.cpu.ps|
  {}

  // ---------------------------------------------------------------- response time

  predicate StartedInTime(p: Proc, n: nat, tq: int)
    requires n >= 1
  {
    (p.done ==> p.started) && (p.started ==> p.firstStart - p.Arrives() <= Spread(n - 1, tq))
  }

  /** The process at place p of the queue, if it has not run yet, will start in time. */
  ghost predicate DueInTime(s: Rr, tq: int, p: nat)
    requires Valid(s) && p < |Queue(s)|
  {
    var i := Queue(s)[p];
    !s.cpu.ps[i].started ==>
      s.cpu.now + SwitchDue(s.cpu) + Spread(p, tq) <= s.cpu.ps[i].Arrives() + Spread(|s.cpu.ps| - 1, tq)
  }

  ghost predicate Punctual(s: Rr, tq: int)
    requires Valid(s)
  {
    && (forall i :: 0 <= i < |s.cpu.ps| ==> StartedInTime(s.cpu.ps[i], |s.cpu.ps|, tq))
    && (forall p :: 0 <= p < |Queue(s)| ==> DueInTime(s, tq, p))
  }

  /** Besides the running process at most N - 1 are queued or arriving. */
  lemma RoomBehind(s: Rr, news: seq<int>)
    requires Sound(s) && s.f < |s.q| && Distinct(news)
    requires s.q[s.f] !in news && forall i :: i in news ==> 0 <= i < |s.cpu.ps| && i !in Queue(s)
    ensures |Queue(s)[1..] + news| <= |s.cpu.ps| - 1
  {
    var n, rest := |s.cpu.ps|, Queue(s)[1..] + news;
    FrontReady(s);
    DistinctConcat(Queue(s)[1..], news);
    ElemsCard(rest);
    BelowCard(n);
    var k := s.q[s.f];
    assert Elems(rest) <= Below(n) - {k};
    SubsetCard(Elems(rest), Below(n) - {k});
  }

  lemma TurnStarts(s: Rr, tq: int)
    requires Sound(s) && s.f < |s.q| && tq >= 1 && Punctual(s, tq)
    ensures var t := Turn(s, tq).cpu;
            |t.ps| == |s.cpu.ps| && forall i :: 0 <= i < |t.ps| ==> StartedInTime(t.ps[i], |t.ps|, tq)
  {
    hide Turn, Spread;
    FrontReady(s);
    var news := TurnShape(s, tq);
    SwitchDueEnough(s.cpu, s.q[s.f]);
    assert StartedInTime(s.cpu.ps[s.q[s.f]], |s.cpu.ps|, tq);
    assert DueInTime(s, tq, 0);
    SpreadGrows(0, 0, tq);
    assert Spread(0, tq) == 0 by { SpreadIs(0, tq); }
    forall i | 0 <= i < |s.cpu.ps| ensures StartedInTime(Turn(s, tq).cpu.ps[i], |s.cpu.ps|, tq) {
      assert StartedInTime(s.cpu.ps[i], |s.cpu.ps|, tq);
    }
  }

  lemma SpreadStep(p: nat, tq: int)
    requires p >= 1
    ensures Spread(p, tq) == Spread(p - 1, tq) + TICKS * tq + SWITCH_COST
  {}

  lemma TurnDue(s: Rr, tq: int, p: nat)
    requires Sound(s) && s.f < |s.q| && tq >= 1 && Punctual(s, tq)
    requires Valid(Turn(s, tq)) && p < |Queue(Turn(s, tq))|
    ensures DueInTime(Turn(s, tq), tq, p)
  {
    hide Turn, Spread, Queue;
    FrontReady(s);
    var k, c, t, n := s.q[s.f], s.cpu, Turn(s, tq), |s.cpu.ps|;
    var news0 := TurnShape(s, tq);
    var news := TurnQueue(s, tq);
    var i := Queue(t)[p];
    TurnLength(s, tq);
    if p < |Queue(s)| - 1 {
      assert i == Queue(s)[p + 1];
      assert DueInTime(s, tq, p + 1);
      assert i in Queue(s)[1..];
      SpreadStep(p + 1, tq);
    } else if p < |Queue(s)[1..] + news| {
      assert i == news[p - (|Queue(s)| - 1)];
      assert i in news;
      RoomBehind(s, news);
      SpreadGrows(p, n - 2, tq);
      SpreadStep(n - 1, tq);
      assert Pending(c.ps[i], c.now + SwitchTicks(c, k));
    } else {
      assert i == k;
    }
  }

  lemma TurnPunctual(s: Rr, tq: int)
    requires Sound(s) && s.f < |s.q| && tq >= 1 && Punctual(s, tq)
    ensures Valid(Turn(s, tq)) && Punctual(Turn(s, tq), tq)
  {
    hide Turn, Spread, Queue, DueInTime;
    TurnSound(s, tq);
    TurnStarts(s, tq);
    forall p | 0 <= p < |Queue(Turn(s, tq))| ensures DueInTime(Turn(s, tq), tq, p) {
      TurnDue(s, tq, p);
    }
  }

  /** Whoever is queued when the CPU has idled has just arrived. */
  lemma FreshQueuePunctual(s: Rr, tq: int)
    requires Sound(s) && tq >= 1 && s.cpu.prev == IDLE
    requires forall i :: i in Queue(s) ==> s.cpu.ps[i].Arrives() == s.cpu.now
    requires forall i :: 0 <= i < |s.cpu.ps| ==> StartedInTime(s.cpu.ps[i], |s.cpu.ps|, tq)
    ensures Punctual(s, tq)
  {
    hide Spread, AllTurns;
    QueueSize(s, tq);
    forall p | 0 <= p < |Queue(s)| ensures DueInTime(s, tq, p) {
      assert Queue(s)[p] in Queue(s);
      SpreadGrows(p, |s.cpu.ps| - 1, tq);
    }
  }

  lemma RefillPunctual(s: Rr, tq: int)
    requires Complete(s) && tq >= 1 && Punctual(s, tq)
    requires s.f == |s.q| && NextArrival(s.cpu.ps, s.cpu.now, |s.cpu.ps|) >= 0
    ensures Valid(Refill(s)) && Punctual(Refill(s), tq)
  {
    hide Spread, StartedInTime, AllTurns;
    RefillComplete(s);
    RefillTable(s);
    var r, ps, now := Refill(s), s.cpu.ps, s.cpu.now;
    assert Queue(s) == [];
    NextArrivalPending(ps, now, |ps|);
    forall i | i in Queue(r) ensures ps[i].Arrives() == r.cpu.now {
      assert Ready(ps[i], r.cpu.now) && !Ready(ps[i], now);
      NextArrivalFirst(ps, now, |ps|, i);
    }
    FreshQueuePunctual(r, tq);
  }

  lemma BeginPunctual(ps: seq<Proc>, tq: int)
    requires FreshTable(ps) && tq >= 1
    ensures Valid(Begin(ps)) && Punctual(Begin(ps), tq)
  {
    hide Spread, AllTurns;
    BeginComplete(ps);
    BeginTable(ps);
    var s := Begin(ps);
    var nx := NextArrival(ps, -TICKS, |ps|);
    NextArrivalPending(ps, -TICKS, |ps|);
    forall i | i in Queue(s) ensures ps[i].Arrives() == s.cpu.now {
      assert ValidProc(ps[i]) && Fresh(ps[i]) && Ready(ps[i], s.cpu.now);
      NextArrivalFirst(ps, -TICKS, |ps|, i);
      assert ValidProc(ps[nx]);
    }
    forall i | 0 <= i < |ps| ensures StartedInTime(ps[i], |ps|, tq) {
      assert Fresh(ps[i]);
    }
    FreshQueuePunctual(s, tq);
  }

  lemma {:induction false} RunPunctual(s: Rr, tq: int)
    requires Sound(s) && tq >= 1 && AlwaysComplete(s, tq) && Punctual(s, tq)
    ensures Valid(Run(s, tq)) && Punctual(Run(s, tq), tq)
    decreases Measure(s, tq)
  {
    hide Step, Complete, Punctual, Turn, Refill;
    if !Halted(s) {
      StepConsumes(s, tq);
      StepKinds(s, tq);
      if s.f < |s.q| {
        TurnPunctual(s, tq);
      } else {
        RefillPunctual(s, tq);
      }
      RunPunctual(Step(s, tq), tq);
    }
  }

  /** Response time on a collision-free run: at most N - 1 full turns. */
  lemma RrResponse(ps: seq<Proc>, tq: int, i: nat)
    requires FreshTable(ps) && tq >= 1 && i < |ps|
    ensures Sound(Begin(ps)) && |Run(Begin(ps), tq).cpu.ps| == |ps|
    ensures CollisionFree(Begin(ps), tq) ==>
              var p := Run(Begin(ps), tq).cpu.ps[i];
              p.started && p.firstStart - p.Arrives() <= (|ps| - 1) * (TICKS * tq + SWITCH_COST)
  {
    hide Run, Begin, AllTurns;
    BeginComplete(ps);
    BeginTable(ps);
    RunSound(Begin(ps), tq);
    if CollisionFree(Begin(ps), tq) {
      MissedIffCollision(Begin(ps), tq);
      BeginPunctual(ps, tq);
      RunPunctual(Begin(ps), tq);
      assert StartedInTime(Run(Begin(ps), tq).cpu.ps[i], |ps|, tq);
      SpreadIs(|ps| - 1, tq);
      RrFinishes(ps, tq);
    }
  }

  // ---------------------------------------------------------------- where collisions fall

  /** Switches since the CPU last idled. */
  function SinceIdle(segs: seq<Segment>): nat {
    if segs == [] then 0
    else
      var last := segs[|segs| - 1];
      if last.pid == IDLE then 0
      else SinceIdle(segs[..|segs| - 1]) + if last.pid == SWITCH then 1 else 0
  }

  lemma AddSegSinceIdle(segs: seq<Segment>, now: int, end: int, pid: int)
    requires now < end && (pid == SWITCH ==> !EndsWith(segs, SWITCH))
    ensures SinceIdle(AddSeg(segs, now, end, pid))
         == if pid == IDLE then 0 else SinceIdle(segs) + if pid == SWITCH then 1 else 0
  {
    var out := AddSeg(segs, now, end, pid);
    assert out[..|out| - 1] == if |out| == |segs| then segs[..|segs| - 1] else segs;
  }

  predicate Whole(ticks: int) {
    ticks % TICKS == 0
  }

  lemma WholeSum(a: int, b: int)
    requires Whole(a) && Whole(b)
    ensures Whole(a + b) && Whole(a - b)
  {}

  lemma WholeTimes(n: int)
    ensures Whole(TICKS * n)
  {}

  lemma QuantumWhole(tq: int, remain: int)
    requires Whole(remain)
    ensures Whole(Quantum(tq, remain))
  {
    WholeTimes(tq);
  }

  /** Everything but the switches since the last idle time is whole milliseconds. */
  ghost predicate Aligned(s: Rr) {
    && (forall i :: 0 <= i < |s.cpu.ps| ==> Whole(s.cpu.ps[i].remain))
    && Whole(s.cpu.now - SinceIdle(s.cpu.segs))
  }

  /** Switches are paid by all turns but the first. */
  ghost predicate FewSwitches(s: Rr) {
    && SinceIdle(s.cpu.segs) <= s.f
    && (s.cpu.prev != IDLE ==> SinceIdle(s.cpu.segs) < s.f)
  }

  lemma TurnSinceIdle(s: Rr, tq: int)
    requires Balanced(s) && s.f < |s.q| && tq >= 1
    ensures SinceIdle(Turn(s, tq).cpu.segs) == SinceIdle(s.cpu.segs) + SwitchTicks(s.cpu, s.q[s.f])
  {
    hide SinceIdle, AddSeg, Accounted, Quantum;
    FrontReady(s);
    var c, k := s.cpu, s.q[s.f];
    var r := Enter(c, k);
    assert ValidProc(c.ps[k]);
    EnterShape(c, k);
    QuantumShape(r, k, tq);
    AddSegSinceIdle(c.segs, c.now, c.now + SWITCH_COST, SWITCH);
    AddSegSinceIdle(r.segs, r.now, r.now + Quantum(tq, r.ps[k].remain), r.ps[k].pid);
  }

  lemma TurnAligned(s: Rr, tq: int)
    requires Balanced(s) && Aligned(s) && s.f < |s.q| && tq >= 1
    ensures Aligned(Turn(s, tq))
  {
    hide SinceIdle, Turn, Accounted, Whole, Quantum, Brought, Queue, ValidTable;
    FrontReady(s);
    var news := TurnShape(s, tq);
    TurnSinceIdle(s, tq);
    var k, c, t := s.q[s.f], s.cpu, Turn(s, tq);
    var ran := Quantum(tq, c.ps[k].remain);
    QuantumWhole(tq, c.ps[k].remain);
    WholeSum(c.ps[k].remain, ran);
    WholeSum(c.now - SinceIdle(c.segs), ran);
    assert t.cpu.now - SinceIdle(t.cpu.segs) == c.now - SinceIdle(c.segs) + ran;
  }

  lemma TurnFewSwitches(s: Rr, tq: int)
    requires Balanced(s) && FewSwitches(s) && s.f < |s.q| && tq >= 1
    ensures FewSwitches(Turn(s, tq))
  {
    hide SinceIdle, Turn, Accounted, Brought, Queue, ValidTable;
    FrontReady(s);
    var news := TurnShape(s, tq);
    TurnSinceIdle(s, tq);
  }

  lemma RefillAligned(s: Rr)
    requires Aligned(s) && NextArrival(s.cpu.ps, s.cpu.now, |s.cpu.ps|) >= 0
    ensures Aligned(Refill(s)) && FewSwitches(Refill(s))
  {
    hide SinceIdle, AddSeg, Whole, NextArrival;
    RefillTable(s);
    AddSegSinceIdle(s.cpu.segs, s.cpu.now, Refill(s).cpu.now, IDLE);
    WholeTimes(s.cpu.ps[NextArrival(s.cpu.ps, s.cpu.now, |s.cpu.ps|)].arrival);
  }

  lemma BeginAligned(ps: seq<Proc>)
    requires FreshTable(ps)
    ensures Aligned(Begin(ps)) && FewSwitches(Begin(ps))
  {
    hide AddSeg, Whole, NextArrival, Present, SinceIdle;
    BeginTable(ps);
    forall i | 0 <= i < |ps| ensures Whole(ps[i].remain) {
      assert Fresh(ps[i]);
      WholeTimes(ps[i].burst);
    }
    BeginClock(ps);
  }

  lemma BeginClock(ps: seq<Proc>)
    ensures SinceIdle(Begin(ps).cpu.segs) == 0 && Whole(Begin(ps).cpu.now)
  {
    hide AddSeg, Whole, NextArrival, Present;
    WholeTimes(0);
    var nx := NextArrival(ps, -TICKS, |ps|);
    if nx >= 0 && ps[nx].arrival > 0 {
      AddSegSinceIdle([], 0, ps[nx].Arrives(), IDLE);
      WholeTimes(ps[nx].arrival);
    }
  }

  /** What a run keeps: the accounts, the alignment, and one switch at most a turn. */
  ghost predicate OnTrack(s: Rr) {
    Balanced(s) && Aligned(s) && FewSwitches(s)
  }

  lemma StepOnTrack(s: Rr, tq: int)
    requires OnTrack(s) && !Halted(s) && tq >= 1
    ensures OnTrack(Step(s, tq))
  {
    hide Turn, Refill, Aligned, FewSwitches, Accounted;
    StepBalanced(s, tq);
    StepKinds(s, tq);
    if s.f < |s.q| {
      TurnAligned(s, tq);
      TurnFewSwitches(s, tq);
    } else {
      RefillAligned(s);
    }
  }

  lemma {:induction false} IterateOnTrack(s: Rr, tq: int, n: nat)
    requires OnTrack(s) && tq >= 1
    ensures OnTrack(Iterate(s, tq, n))
    decreases n
  {
    hide Step, OnTrack;
    TrackSound(s);
    if n > 0 && !Halted(s) {
      StepConsumes(s, tq);
      StepOnTrack(s, tq);
      IterateOnTrack(Step(s, tq), tq, n - 1);
    }
  }

  lemma TrackSound(s: Rr)
    requires OnTrack(s)
    ensures Sound(s)
  {}

  lemma BeginOnTrack(ps: seq<Proc>)
    requires FreshTable(ps)
    ensures OnTrack(Begin(ps))
  {
    hide Aligned, FewSwitches, Begin;
    BeginBalanced(ps);
    BeginAligned(ps);
  }

  lemma AlignedCollision(s: Rr)
    requires Sound(s) && Aligned(s) && Collision(s)
    ensures (SinceIdle(s.cpu.segs) + 1) % TICKS == 0
  {
    hide SinceIdle;
    var i :| 0 <= i < |s.cpu.ps| && !s.cpu.ps[i].done && s.cpu.ps[i].Arrives() == s.cpu.now + SWITCH_COST;
    WholeTimes(s.cpu.ps[i].arrival);
    WholeSum(s.cpu.ps[i].Arrives(), s.cpu.now - SinceIdle(s.cpu.segs));
  }

  /** At whatever iteration a run collides, the switch is a tenth, a twentieth, ... since the CPU last idled. */
  lemma CollisionIsTenth(ps: seq<Proc>, tq: int, n: nat)
    requires FreshTable(ps) && tq >= 1
    ensures Sound(Begin(ps)) && Sound(Iterate(Begin(ps), tq, n))
    ensures var s := Iterate(Begin(ps), tq, n); Collision(s) ==> (SinceIdle(s.cpu.segs) + 1) % TICKS == 0
  {
    hide Collision, SinceIdle, Begin, Iterate;
    BeginOnTrack(ps);
    IterateOnTrack(Begin(ps), tq, n);
    var s := Iterate(Begin(ps), tq, n);
    if Collision(s) {
      AlignedCollision(s);
    }
  }

  lemma TwoUnfinished(ps: seq<Proc>, i: nat, j: nat)
    requires i < |ps| && j < |ps| && i != j && !ps[i].done && !ps[j].done
    ensures Unfinished(ps) >= 2
  {
    var p := ps[i].(done := true);
    UnfinishedUpdate(ps, i, p);
    UnfinishedBound(ps[i := p]);
    assert !ps[i := p][j].done;
  }

  /** So the first one comes after ten turns, with two processes unfinished. */
  lemma CollisionTakesTwelve(s: Rr, tq: int)
    requires Sound(s) && Aligned(s) && FewSwitches(s) && Collision(s) && tq >= 1
    ensures s.f + AllTurns(s.cpu.ps, tq) >= 12
  {
    hide SinceIdle, AllTurns, Aligned;
    AlignedCollision(s);
    FrontReady(s);
    var i :| 0 <= i < |s.cpu.ps| && !s.cpu.ps[i].done && s.cpu.ps[i].Arrives() == s.cpu.now + SWITCH_COST;
    TwoUnfinished(s.cpu.ps, s.q[s.f], i);
    QueueSize(s, tq);
  }

  lemma {:induction false} FewTurnsNoCollision(s: Rr, tq: int)
    requires OnTrack(s) && tq >= 1 && s.f + AllTurns(s.cpu.ps, tq) <= 11
    ensures Sound(s) && CollisionFree(s, tq)
    decreases Measure(s, tq)
  {
    hide Step, Aligned, FewSwitches, Collision, Balanced, AllTurns;
    TrackSound(s);
    if !Halted(s) {
      if Collision(s) {
        CollisionTakesTwelve(s, tq);
      }
      StepConsumes(s, tq);
      StepOnTrack(s, tq);
      FewTurnsNoCollision(Step(s, tq), tq);
    }
  }

  /** Tables that need at most eleven turns in all are safe whatever the arrivals. */
  lemma ElevenTurnsAreSafe(ps: seq<Proc>, tq: int)
    requires FreshTable(ps) && tq >= 1 && AllTurns(ps, tq) <= 11
    ensures Sound(Begin(ps)) && CollisionFree(Begin(ps), tq)
  {
    hide Begin, AllTurns, OnTrack;
    BeginOnTrack(ps);
    BeginTable(ps);
    FewTurnsNoCollision(Begin(ps), tq);
  }

  // ---------------------------------------------------------------- a process that is never served

  function Job(pid: int, arrival: int, burst: int): Proc {
    Proc(pid, arrival, burst, TICKS * burst, 0, 0, false, false)
  }

  /** Twelve turns of 1 ms; the third process arrives just as the tenth switch ends. */
  const MISSED: seq<Proc> := [Job(0, 0, 6), Job(1, 0, 5), Job(2, 11, 1)]

  /** After j turns: the clock and the table. */
  ghost predicate AlternatingCpu(c: Cpu, j: nat) {
    && |c.ps| == 3
    && c.now == (if j == 0 then 0 else 11 * j - 1)
    && c.prev == (if j == 0 then IDLE else (j + 1) % 2)
    && c.ps[0].pid == 0 && c.ps[1].pid == 1 && c.ps[2] == MISSED[2]
    && c.ps[0].remain == 60 - 10 * ((j + 1) / 2) && c.ps[1].remain == 50 - 10 * (j / 2)
  }

  /** The first two alternate, the third has not been seen. */
  ghost predicate Alternating(s: Rr, j: nat) {
    && Sound(s) && AlternatingCpu(s.cpu, j) && s.f == j && j <= 11
    && Queue(s) == if j <= 9 then [j % 2, (j + 1) % 2] else if j == 10 then [0] else []
  }

  lemma MissedFresh()
    ensures FreshTable(MISSED)
  {
    assert forall i :: 0 <= i < 3 ==> ValidProc(MISSED[i]) && Fresh(MISSED[i]);
  }

  lemma MissedClock()
    ensures Begin(MISSED).cpu.now == 0
  {
    hide AddSeg, Present, NextArrival;
    NextArrivalFirst(MISSED, -TICKS, 3, 0);
  }

  lemma MissedPresent()
    ensures Present(MISSED, 0, 3) == [0, 1]
  {
    assert Present(MISSED, 0, 0) == [];
    assert Present(MISSED, 0, 1) == [0];
    assert Present(MISSED, 0, 2) == [0, 1];
  }

  lemma AlternatingStart()
    ensures FreshTable(MISSED) && Alternating(Begin(MISSED), 0)
  {
    hide AddSeg, Present, NextArrival, FreshTable, Distinct;
    MissedFresh();
    BeginComplete(MISSED);
    BeginTable(MISSED);
    MissedClock();
    MissedPresent();
  }

  lemma AlternatingNews(s: Rr, j: nat, news: seq<int>)
    requires Alternating(s, j) && j <= 10
    requires Brought(s.cpu, j % 2, 11 * j, 11 * j + 10, news)
    requires forall i :: i in news ==> i !in Queue(s)
    ensures news == []
  {
    assert s.cpu.ps[2].Arrives() == 110;
    assert ValidProc(s.cpu.ps[1]);
    assert j == 10 ==> s.cpu.ps[1].done;
    assert j < 10 ==> 0 in Queue(s) && 1 in Queue(s) by {
      assert j < 10 ==> Queue(s)[0] in Queue(s) && Queue(s)[1] in Queue(s);
    }
    assert j == 10 ==> Queue(s)[0] in Queue(s);
    assert forall i :: i !in news;
    assert Elems(news) == {};
    ElemsCard(news);
  }

  lemma AlternatingTurn(s: Rr, j: nat)
    requires Alternating(s, j) && j <= 10
    ensures s.f < |s.q| && Alternating(Turn(s, 1), j + 1)
  {
    hide Turn, Brought, Sound, Valid, AlternatingCpu;
    AlternatingFront(s, j);
    var t := Turn(s, 1);
    AlternatingClock(s, j);
    var news := TurnQueue(s, 1);
    AlternatingNews(s, j, news);
    TurnSound(s, 1);
    SoundFront(t);
    assert t.f <= |t.q| by { ValidFront(t); }
    AlternatingQueue(s, j, t);
  }

  lemma ValidFront(s: Rr)
    requires Valid(s)
    ensures s.f <= |s.q|
  {}

  lemma AlternatingClock(s: Rr, j: nat)
    requires Alternating(s, j) && j <= 10 && Valid(s) && s.f < |s.q|
    ensures var t := Turn(s, 1);
            && AlternatingCpu(t.cpu, j + 1) && t.f == j + 1 && t.cpu.now == 11 * j + 10
            && |t.cpu.ps| == |s.cpu.ps| == 3 && t.cpu.ps[j % 2].remain == s.cpu.ps[j % 2].remain - 10
            && ValidTable(t.cpu.ps)
  {
    hide Turn, Brought, Sound, Valid, ValidTable, Queue;
    AlternatingFront(s, j);
    var news := TurnShape(s, 1);
  }

  lemma AlternatingFront(s: Rr, j: nat)
    requires Alternating(s, j) && j <= 10
    ensures Valid(s) && s.f < |s.q| && s.q[s.f] == j % 2 && |s.cpu.ps| == 3 && !s.cpu.ps[j % 2].done
    ensures s.cpu.now + SwitchTicks(s.cpu, j % 2) == 11 * j
    ensures Quantum(1, s.cpu.ps[j % 2].remain) == 10
  {
    QueueFront(s);
    FrontReady(s);
    assert ValidProc(s.cpu.ps[j % 2]);
  }

  lemma AlternatingQueue(s: Rr, j: nat, t: Rr)
    requires Alternating(s, j) && j <= 10 && t.f <= |t.q|
    requires ValidTable(t.cpu.ps) && |t.cpu.ps| == |s.cpu.ps| == 3
    requires t.cpu.ps[j % 2].remain == s.cpu.ps[j % 2].remain - 10
    requires Queue(t) == Queue(s)[1..] + [] + (if t.cpu.ps[j % 2].done then [] else [j % 2])
    ensures Queue(t) == if j + 1 <= 9 then [(j + 1) % 2, (j + 2) % 2] else if j + 1 == 10 then [0] else []
  {
    assert ValidProc(t.cpu.ps[j % 2]);
  }

  lemma {:induction false} AlternatingRun(s: Rr, j: nat)
    requires Alternating(s, j)
    ensures Alternating(Run(s, 1), 11)
    decreases 11 - j
  {
    hide Turn;
    if j <= 10 {
      AlternatingTurn(s, j);
      QueueNotHalted(s);
      StepKinds(s, 1);
      StepConsumes(s, 1);
      AlternatingRun(Step(s, 1), j + 1);
    } else {
      NobodyElse(s);
    }
  }

  lemma NobodyElse(s: Rr)
    requires Alternating(s, 11)
    ensures Halted(s)
  {
    var ps := s.cpu.ps;
    NextArrivalPending(ps, s.cpu.now, 3);
    assert ValidProc(ps[0]) && ValidProc(ps[1]);
    assert ps[0].done && ps[1].done && ps[2].Arrives() == 110;
  }

  /** One turn over the bound: the run ends, and the third process has never been given the CPU. */
  lemma NeverServed()
    ensures FreshTable(MISSED) && Sound(Begin(MISSED)) && AllTurns(MISSED, 1) == 12
    ensures var ps := Run(Begin(MISSED), 1).cpu.ps; |ps| == 3 && !ps[2].done && !ps[2].started
    ensures !CollisionFree(Begin(MISSED), 1)
  {
    hide Run, Begin, AllTurns;
    AlternatingStart();
    AlternatingRun(Begin(MISSED), 0);
    RrFinishes(MISSED, 1);
    MissedTurns();
  }

  lemma MissedTurns()
    ensures AllTurns(MISSED, 1) == 12
  {
    hide Turns;
    TurnsOf(60, 6);
    TurnsOf(50, 5);
    TurnsOf(10, 1);
    var one, two := [MISSED[0]], [MISSED[0], MISSED[1]];
    assert one[..0] == [] && two[..1] == one && MISSED[..2] == two;
    assert AllTurns(one, 1) == 6;
    assert AllTurns(two, 1) == 11;
  }

  lemma {:induction false} TurnsOf(remain: int, n: nat)
    requires remain == 10 * n
    ensures Turns(remain, 1) == n
  {
    if n > 0 {
      TurnsOf(remain - 10, n - 1);
    }
  }
}

/** Round robin: a queue of table indices, one quantum per turn. */
module SchedRoundRobin {
  import opened Sets
  import opened SchedModel
  import opened SchedPick

  /** `q` holds every index ever pushed; the queue proper starts at the front index f. */
  datatype Rr = Rr(cpu: Cpu, q: seq<int>, f: nat)

  /** Unfinished processes that have arrived, in table order. */
  function Present(ps: seq<Proc>, now: int, n: nat): (r: seq<int>)
    requires n <= |ps|
  {
    if n == 0 then []
    else Present(ps, now, n - 1) + if Ready(ps[n - 1], now) then [n - 1] else []
  }

  /** Unfinished processes that arrive in (after, until], in table order. */
  function Newcomers(ps: seq<Proc>, after: int, until: int, n: nat): (r: seq<int>)
    requires n <= |ps|
  {
    if n == 0 then []
    else Newcomers(ps, after, until, n - 1)
         + if Pending(ps[n - 1], after) && ps[n - 1].Arrives() <= until then [n - 1] else []
  }

  /** The CPU given to process k. */
  function Enter(c: Cpu, k: nat): Cpu
    requires k < |c.ps|
  {
    NoteStart(SwitchTo(c, c.ps[k].pid), k)
  }

  function Quantum(tq: int, remain: int): int {
    if TICKS * tq < remain then TICKS * tq else remain
  }

  function RunQuantum(c: Cpu, k: nat, tq: int): Cpu
    requires k < |c.ps|
  {
    Execute(c, k, Quantum(tq, c.ps[k].remain)).(prev := c.ps[k].pid)
  }

  ghost predicate Valid(s: Rr) {
    && ValidTable(s.cpu.ps) && s.f <= |s.q|
    && forall i :: 0 <= i < |s.q| ==> 0 <= s.q[i] < |s.cpu.ps|
  }

  /** The loop stops when all is done, or when the queue is empty and nobody else arrives. */
  predicate Halted(s: Rr)
    requires s.f <= |s.q|
  {
    AllDone(s.cpu.ps) || (s.f == |s.q| && NextArrival(s.cpu.ps, s.cpu.now, |s.cpu.ps|) < 0)
  }

  /** Empty queue: idle until the next arrival and push whoever is there. */
  function Refill(s: Rr): Rr
    requires NextArrival(s.cpu.ps, s.cpu.now, |s.cpu.ps|) >= 0
  {
    var c := s.cpu;
    var arrives := c.ps[NextArrival(c.ps, c.now, |c.ps|)].Arrives();
    Rr(IdleUntil(c, arrives).(prev := IDLE), s.q + Present(c.ps, arrives, |c.ps|), s.f)
  }

  /** Serve the process at the front. */
  function Turn(s: Rr, tq: int): Rr
    requires Valid(s) && s.f < |s.q|
  {
    var k := s.q[s.f];
    var r := Enter(s.cpu, k);
    var d := RunQuantum(r, k, tq);
    Rr(d, s.q + Newcomers(r.ps, r.now, d.now, |r.ps|) + (if d.ps[k].done then [] else [k]), s.f + 1)
  }

  /** One iteration of the simulation loop. */
  function Step(s: Rr, tq: int): Rr
    requires Valid(s) && !Halted(s)
  {
    if s.f == |s.q| then Refill(s)
    else if s.cpu.ps[s.q[s.f]].done then s.(f := s.f + 1)
    else Turn(s, tq)
  }

  /** First arrivals: idle until one if nobody is there at 0, then push all present. */
  function Begin(ps: seq<Proc>): Rr {
    var nx := NextArrival(ps, -TICKS, |ps|);
    var c := if nx >= 0 && ps[nx].arrival > 0 then IdleUntil(Boot(ps), ps[nx].Arrives()) else Boot(ps);
    Rr(c, Present(ps, c.now, |ps|), 0)
  }

  // ---------------------------------------------------------------- the lists that are pushed

  lemma IncreasingGrows(l: seq<int>, n: int)
    requires Increasing(l) && forall i :: i in l ==> i < n
    ensures Increasing(l + [n])
  {
    forall i | 0 <= i < |l| ensures l[i] < n {
      assert l[i] in l;
    }
  }

  /** Whoever is there, in table order. */
  lemma {:induction false} PresentExact(ps: seq<Proc>, now: int, n: nat)
    requires n <= |ps|
    ensures Increasing(Present(ps, now, n)) && |Present(ps, now, n)| <= n
    ensures forall i :: i in Present(ps, now, n) <==> 0 <= i < n && Ready(ps[i], now)
  {
    if n > 0 {
      PresentExact(ps, now, n - 1);
      IncreasingGrows(Present(ps, now, n - 1), n - 1);
    }
  }

  /** Whoever arrives in (after, until], in table order. */
  lemma {:induction false} NewcomersExact(ps: seq<Proc>, after: int, until: int, n: nat)
    requires n <= |ps|
    ensures Increasing(Newcomers(ps, after, until, n)) && |Newcomers(ps, after, until, n)| <= n
    ensures forall i :: i in Newcomers(ps, after, until, n)
                   <==> 0 <= i < n && Pending(ps[i], after) && ps[i].Arrives() <= until
  {
    if n > 0 {
      NewcomersExact(ps, after, until, n - 1);
      IncreasingGrows(Newcomers(ps, after, until, n - 1), n - 1);
    }
  }

  // ---------------------------------------------------------------- one turn on the table

  lemma EnterShape(c: Cpu, k: nat)
    requires k < |c.ps| && ValidTable(c.ps)
    ensures var r := Enter(c, k);
            && ValidTable(r.ps) && |r.ps| == |c.ps|
            && r.now == c.now + SwitchTicks(c, k)
            && r.ps == c.ps[k := r.ps[k]] && SameJob(r.ps[k], c.ps[k])
            && r.ps[k].remain == c.ps[k].remain && r.ps[k].done == c.ps[k].done && r.ps[k].started
            && r.ps[k].firstStart == if c.ps[k].started then c.ps[k].firstStart else r.now
  {
    assert ValidProc(c.ps[k]);
    forall i | 0 <= i < |c.ps| ensures ValidProc(Enter(c, k).ps[i]) {
      assert ValidProc(c.ps[i]);
    }
  }

  lemma QuantumShape(c: Cpu, k: nat, tq: int)
    requires k < |c.ps| && ValidTable(c.ps) && !c.ps[k].done && tq >= 1
    ensures var d, ran := RunQuantum(c, k, tq), Quantum(tq, c.ps[k].remain);
            && 0 < ran <= c.ps[k].remain && ran <= TICKS * tq
            && ValidTable(d.ps) && d.now == c.now + ran && d.prev == c.ps[k].pid
            && d.ps == c.ps[k := d.ps[k]] && SameJob(d.ps[k], c.ps[k])
            && d.ps[k].remain == c.ps[k].remain - ran
            && d.ps[k].started == c.ps[k].started && d.ps[k].firstStart == c.ps[k].firstStart
  {
    assert ValidProc(c.ps[k]);
    var d := RunQuantum(c, k, tq);
    forall i | 0 <= i < |c.ps| ensures ValidProc(d.ps[i]) {
      assert ValidProc(c.ps[i]);
    }
  }

  /** What a turn changes: the front process, the clock, and who has arrived meanwhile. */
  lemma TurnShape(s: Rr, tq: int) returns (news: seq<int>)
    requires Valid(s) && s.f < |s.q| && !s.cpu.ps[s.q[s.f]].done && tq >= 1
    ensures var k, c, t := s.q[s.f], s.cpu, Turn(s, tq);
            var ran, start := Quantum(tq, c.ps[k].remain), c.now + SwitchTicks(c, k);
            && ValidTable(t.cpu.ps) && t.f == s.f + 1
            && 0 < ran <= c.ps[k].remain && ran <= TICKS * tq
            && t.cpu.now == start + ran && t.cpu.prev == c.ps[k].pid
            && t.cpu.ps == c.ps[k := t.cpu.ps[k]] && SameJob(t.cpu.ps[k], c.ps[k])
            && t.cpu.ps[k].remain == c.ps[k].remain - ran && t.cpu.ps[k].started
            && t.cpu.ps[k].firstStart == (if c.ps[k].started then c.ps[k].firstStart else start)
            && t.q == s.q + news + (if t.cpu.ps[k].done then [] else [k])
            && Brought(c, k, start, t.cpu.now, news)
            && |news| == |Newcomers(Enter(c, k).ps, start, t.cpu.now, |c.ps|)|
  {
    hide Enter, RunQuantum, Quantum, Newcomers, Brought, ValidTable;
    var k, c := s.q[s.f], s.cpu;
    var r := Enter(c, k);
    EnterShape(c, k);
    QuantumShape(r, k, tq);
    var d := RunQuantum(r, k, tq);
    news := Newcomers(r.ps, r.now, d.now, |r.ps|);
    NewcomersBrought(c, k, d.now);
  }

  lemma NewcomersBrought(c: Cpu, k: nat, end: int)
    requires k < |c.ps| && ValidTable(c.ps)
    ensures var r := Enter(c, k); Brought(c, k, r.now, end, Newcomers(r.ps, r.now, end, |r.ps|))
  {
    hide Enter, Newcomers;
    var r := Enter(c, k);
    EnterShape(c, k);
    NewcomersExact(r.ps, r.now, end, |r.ps|);
    forall i | 0 <= i < |c.ps| ensures i != k ==> r.ps[i] == c.ps[i] {}
  }

  /** `news` are exactly the other processes that arrive in (start, end], in table order. */
  ghost predicate Brought(c: Cpu, k: nat, start: int, end: int, news: seq<int>) {
    && Increasing(news)
    && (forall i :: i in news ==> 0 <= i < |c.ps|)
    && (forall i :: 0 <= i < |c.ps| && i != k ==> (i in news <==> Pending(c.ps[i], start) && c.ps[i].Arrives() <= end))
    && (k < |c.ps| && c.ps[k].Arrives() <= start ==> k !in news)
  }

  // ---------------------------------------------------------------- what the queue holds

  function Queue(s: Rr): seq<int>
    requires s.f <= |s.q|
  {
    s.q[s.f..]
  }

  /** Only unfinished processes that have arrived are queued, none of them twice. */
  ghost predicate Sound(s: Rr) {
    && Valid(s) && Distinct(Queue(s))
    && forall i :: i in Queue(s) ==> 0 <= i < |s.cpu.ps| && Ready(s.cpu.ps[i], s.cpu.now)
  }

  /** All of them are. */
  ghost predicate Complete(s: Rr) {
    Sound(s) && forall i :: 0 <= i < |s.cpu.ps| && Ready(s.cpu.ps[i], s.cpu.now) ==> i in Queue(s)
  }

  /** The next turn begins with a switch at whose very end an unfinished process arrives. */
  ghost predicate Collision(s: Rr)
    requires Valid(s)
  {
    && s.f < |s.q| && SwitchTicks(s.cpu, s.q[s.f]) > 0
    && exists i :: 0 <= i < |s.cpu.ps| && !s.cpu.ps[i].done && s.cpu.ps[i].Arrives() == s.cpu.now + SWITCH_COST
  }

  lemma FrontReady(s: Rr)
    requires Sound(s) && s.f < |s.q|
    ensures 0 <= s.q[s.f] < |s.cpu.ps| && Ready(s.cpu.ps[s.q[s.f]], s.cpu.now)
    ensures s.q[s.f] !in Queue(s)[1..]
    ensures forall i :: i in Queue(s) <==> i == s.q[s.f] || i in Queue(s)[1..]
  {
    assert Queue(s) == [s.q[s.f]] + Queue(s)[1..];
    assert s.q[s.f] in Queue(s);
  }

  lemma TurnQueue(s: Rr, tq: int) returns (news: seq<int>)
    requires Sound(s) && s.f < |s.q| && tq >= 1
    ensures var k, c, t := s.q[s.f], s.cpu, Turn(s, tq);
            && Valid(t)
            && Queue(t) == Queue(s)[1..] + news + (if t.cpu.ps[k].done then [] else [k])
            && Brought(c, k, c.now + SwitchTicks(c, k), t.cpu.now, news)
            && k !in news && forall i :: i in news ==> 0 <= i < |c.ps| && i !in Queue(s)
  {
    hide Turn, Brought;
    FrontReady(s);
    var k, t := s.q[s.f], Turn(s, tq);
    news := TurnShape(s, tq);
    NewsAreNew(s, news, s.cpu.now + SwitchTicks(s.cpu, k), t.cpu.now);
    IndexRange(news, |s.cpu.ps|);
    assert t.q[t.f..] == s.q[s.f..][1..] + news + (if t.cpu.ps[k].done then [] else [k]);
  }

  lemma NewsAreNew(s: Rr, news: seq<int>, start: int, end: int)
    requires Sound(s) && s.f < |s.q| && s.cpu.now <= start
    requires Brought(s.cpu, s.q[s.f], start, end, news)
    ensures s.q[s.f] !in news && forall i :: i in news ==> 0 <= i < |s.cpu.ps| && i !in Queue(s)
  {
    FrontReady(s);
  }

  lemma TurnSound(s: Rr, tq: int)
    requires Sound(s) && s.f < |s.q| && tq >= 1
    ensures Sound(Turn(s, tq))
  {
    hide Turn, Queue;
    FrontReady(s);
    var k, c, t := s.q[s.f], s.cpu, Turn(s, tq);
    var news0 := TurnShape(s, tq);
    var news := TurnQueue(s, tq);
    assert ValidProc(t.cpu.ps[k]);
    DistinctParts(Queue(s)[1..], news, k, t.cpu.ps[k].done);
    forall i | i in Queue(t) ensures 0 <= i < |c.ps| && Ready(t.cpu.ps[i], t.cpu.now) {
      if i in Queue(s)[1..] {
        assert i in Queue(s);
      }
    }
  }

  lemma DistinctParts(a: seq<int>, news: seq<int>, k: int, done: bool)
    requires Distinct(a) && Distinct(news) && k !in a && k !in news
    requires forall i :: i in news ==> i !in a
    ensures Distinct(a + news + (if done then [] else [k]))
  {
    DistinctConcat(a, news);
    if !done {
      DistinctConcat(a + news, [k]);
    }
  }

  /** A turn misses nobody exactly when no process arrives at the end of its switch. */
  lemma TurnComplete(s: Rr, tq: int)
    requires Complete(s) && s.f < |s.q| && tq >= 1
    ensures Complete(Turn(s, tq)) <==> !Collision(s)
  {
    hide Turn, Queue;
    FrontReady(s);
    var k, c, t := s.q[s.f], s.cpu, Turn(s, tq);
    var news0 := TurnShape(s, tq);
    var news := TurnQueue(s, tq);
    TurnSound(s, tq);
    assert ValidProc(t.cpu.ps[k]);
    if Collision(s) {
      var i :| 0 <= i < |c.ps| && !c.ps[i].done && c.ps[i].Arrives() == c.now + SWITCH_COST;
      assert i !in Queue(s) && i !in news && i != k;
      assert Ready(t.cpu.ps[i], t.cpu.now) && i !in Queue(t);
    } else {
      forall i | 0 <= i < |c.ps| && Ready(t.cpu.ps[i], t.cpu.now) ensures i in Queue(t) {
        if i != k && !Ready(c.ps[i], c.now) {
          assert c.ps[i].Arrives() != c.now + SWITCH_COST || SwitchTicks(c, k) == 0;
          assert i in news;
        }
      }
    }
  }

  /** Refilling an empty queue finds everybody, whoever was missed before. */
  lemma RefillComplete(s: Rr)
    requires Valid(s) && s.f == |s.q| && NextArrival(s.cpu.ps, s.cpu.now, |s.cpu.ps|) >= 0
    ensures Complete(Refill(s)) && Refill(s).f < |Refill(s).q|
  {
    var ps := s.cpu.ps;
    var nx := NextArrival(ps, s.cpu.now, |ps|);
    NextArrivalPending(ps, s.cpu.now, |ps|);
    PresentExact(ps, ps[nx].Arrives(), |ps|);
    IndexRange(Present(ps, ps[nx].Arrives(), |ps|), |ps|);
    assert Queue(Refill(s)) == Present(ps, ps[nx].Arrives(), |ps|);
    assert nx in Queue(Refill(s));
  }

  lemma BeginComplete(ps: seq<Proc>)
    requires FreshTable(ps)
    ensures Complete(Begin(ps))
  {
    var c := Begin(ps).cpu;
    PresentExact(ps, c.now, |ps|);
    IndexRange(Present(ps, c.now, |ps|), |ps|);
    assert Queue(Begin(ps)) == Present(ps, c.now, |ps|);
  }
}

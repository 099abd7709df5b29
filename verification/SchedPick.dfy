/** The scans over the process table: who is ready, who arrives next, who runs. */
module SchedPick {
  import opened SchedModel

  predicate Ready(p: Proc, now: int) {
    !p.done && p.Arrives() <= now
  }

  predicate Pending(p: Proc, now: int) {
    !p.done && p.Arrives() > now
  }

  predicate AnyReady(ps: seq<Proc>, now: int) {
    exists i :: 0 <= i < |ps| && Ready(ps[i], now)
  }

  predicate AllDone(ps: seq<Proc>) {
    forall i :: 0 <= i < |ps| ==> ps[i].done
  }

  /** Among the first n processes, the one that arrives next after now, or -1. */
  function NextArrival(ps: seq<Proc>, now: int, n: nat): (r: int)
    requires n <= |ps|
    ensures -1 <= r < n
  {
    if n == 0 then -1
    else
      var found := NextArrival(ps, now, n - 1);
      if Pending(ps[n - 1], now) && (found == -1 || ps[n - 1].arrival < ps[found].arrival) then n - 1 else found
  }

  /** It is pending, and no pending process arrives before it. */
  lemma {:induction false} NextArrivalFirst(ps: seq<Proc>, now: int, n: nat, i: nat)
    requires i < n <= |ps| && Pending(ps[i], now)
    ensures var r := NextArrival(ps, now, n);
            0 <= r && Pending(ps[r], now) && ps[r].arrival <= ps[i].arrival
  {
    if i < n - 1 {
      NextArrivalFirst(ps, now, n - 1, i);
    } else {
      NextArrivalPending(ps, now, n - 1);
    }
  }

  lemma {:induction false} NextArrivalPending(ps: seq<Proc>, now: int, n: nat)
    requires n <= |ps|
    ensures var r := NextArrival(ps, now, n); 0 <= r ==> Pending(ps[r], now)
  {
    if n > 0 {
      NextArrivalPending(ps, now, n - 1);
    }
  }

  /** With unfinished processes and none ready there is always a next arrival. */
  lemma NextArrivalExists(ps: seq<Proc>, now: int)
    requires !AllDone(ps) && !AnyReady(ps, now)
    ensures var r := NextArrival(ps, now, |ps|);
            0 <= r && Pending(ps[r], now) && forall i :: 0 <= i < |ps| && !ps[i].done ==> ps[r].arrival <= ps[i].arrival
  {
    forall i | 0 <= i < |ps| && !ps[i].done
      ensures var r := NextArrival(ps, now, |ps|); 0 <= r && Pending(ps[r], now) && ps[r].arrival <= ps[i].arrival
    {
      assert !Ready(ps[i], now);
      NextArrivalFirst(ps, now, |ps|, i);
    }
    var i :| 0 <= i < |ps| && !ps[i].done;
  }

  // ---------------------------------------------------------------- selection

  datatype Rule = Fcfs | Sjf | Srtf

  /** The measure a rule minimises first; ties go to the earlier arrival, then the smaller pid. */
  function Key(rule: Rule, p: Proc): int {
    match rule
    case Fcfs => 0
    case Sjf => p.burst
    case Srtf => p.remain
  }

  predicate Better(rule: Rule, a: Proc, b: Proc) {
    || Key(rule, a) < Key(rule, b)
    || (Key(rule, a) == Key(rule, b)
        && (a.arrival < b.arrival || (a.arrival == b.arrival && a.pid < b.pid)))
  }

  /** The best ready process among the first n, or -1. */
  function Pick(rule: Rule, ps: seq<Proc>, now: int, n: nat): (r: int)
    requires n <= |ps|
    ensures -1 <= r < n
  {
    if n == 0 then -1
    else
      var best := Pick(rule, ps, now, n - 1);
      if Ready(ps[n - 1], now) && (best == -1 || Better(rule, ps[n - 1], ps[best])) then n - 1 else best
  }

  lemma {:induction false} PickReady(rule: Rule, ps: seq<Proc>, now: int, n: nat)
    requires n <= |ps|
    ensures var r := Pick(rule, ps, now, n); 0 <= r ==> Ready(ps[r], now)
  {
    if n > 0 {
      PickReady(rule, ps, now, n - 1);
    }
  }

  /** Every other ready process is worse. */
  lemma {:induction false} PickBest(rule: Rule, ps: seq<Proc>, now: int, n: nat, i: nat)
    requires i < n <= |ps| && Ready(ps[i], now)
    requires forall a, b :: 0 <= a < b < |ps| ==> ps[a].pid != ps[b].pid
    ensures var r := Pick(rule, ps, now, n);
            0 <= r && Ready(ps[r], now) && (r == i || Better(rule, ps[r], ps[i]))
  {
    PickReady(rule, ps, now, n);
    if i < n - 1 {
      PickBest(rule, ps, now, n - 1, i);
    }
  }

  /** `a` comes before `b` in (key, arrival, pid), or is `b`. */
  predicate Leads(aKey: int, a: Proc, bKey: int, b: Proc) {
    || aKey < bKey
    || (aKey == bKey && (a.arrival < b.arrival || (a.arrival == b.arrival && a.pid <= b.pid)))
  }

  /** FCFS: the earliest arrival, then the smallest pid. */
  lemma FcfsChoice(ps: seq<Proc>, now: int, i: nat)
    requires ValidTable(ps) && i < |ps| && !ps[i].done && ps[i].Arrives() <= now
    ensures var r := Pick(Fcfs, ps, now, |ps|);
            && 0 <= r && !ps[r].done && ps[r].Arrives() <= now
            && (ps[r].arrival < ps[i].arrival || (ps[r].arrival == ps[i].arrival && ps[r].pid <= ps[i].pid))
  {
    PickBest(Fcfs, ps, now, |ps|, i);
  }

  /** SJF: the smallest burst, then the earliest arrival, then the smallest pid. */
  lemma SjfChoice(ps: seq<Proc>, now: int, i: nat)
    requires ValidTable(ps) && i < |ps| && !ps[i].done && ps[i].Arrives() <= now
    ensures var r := Pick(Sjf, ps, now, |ps|);
            && 0 <= r && !ps[r].done && ps[r].Arrives() <= now
            && (|| ps[r].burst < ps[i].burst
                || (ps[r].burst == ps[i].burst
                    && (ps[r].arrival < ps[i].arrival || (ps[r].arrival == ps[i].arrival && ps[r].pid <= ps[i].pid))))
  {
    PickBest(Sjf, ps, now, |ps|, i);
  }

  /** SRTF: the smallest remaining time, then the earliest arrival, then the smallest pid. */
  lemma SrtfChoice(ps: seq<Proc>, now: int, i: nat)
    requires ValidTable(ps) && i < |ps| && !ps[i].done && ps[i].Arrives() <= now
    ensures var r := Pick(Srtf, ps, now, |ps|);
            && 0 <= r && !ps[r].done && ps[r].Arrives() <= now
            && (|| ps[r].remain < ps[i].remain
                || (ps[r].remain == ps[i].remain
                    && (ps[r].arrival < ps[i].arrival || (ps[r].arrival == ps[i].arrival && ps[r].pid <= ps[i].pid))))
  {
    PickBest(Srtf, ps, now, |ps|, i);
  }

  lemma PickExists(rule: Rule, ps: seq<Proc>, now: int)
    requires AnyReady(ps, now) && ValidTable(ps)
    ensures var r := Pick(rule, ps, now, |ps|); 0 <= r && Ready(ps[r], now)
  {
    var i :| 0 <= i < |ps| && Ready(ps[i], now);
    PickBest(rule, ps, now, |ps|, i);
  }

  // ---------------------------------------------------------------- counting

  /** Processes not yet done. */
  function Unfinished(ps: seq<Proc>): nat {
    if ps == [] then 0
    else Unfinished(ps[..|ps| - 1]) + if ps[|ps| - 1].done then 0 else 1
  }

  lemma {:induction false} UnfinishedUpdate(ps: seq<Proc>, k: nat, p: Proc)
    requires k < |ps|
    ensures Unfinished(ps[k := p]) == Unfinished(ps) + (if p.done then 0 else 1) - if ps[k].done then 0 else 1
  {
    var n := |ps| - 1;
    if k < n {
      UnfinishedUpdate(ps[..n], k, p);
      assert ps[k := p][..n] == ps[..n][k := p];
    } else {
      assert ps[k := p][..n] == ps[..n];
    }
  }

  lemma {:induction false} UnfinishedBound(ps: seq<Proc>)
    ensures Unfinished(ps) <= |ps|
    ensures AllDone(ps) <==> Unfinished(ps) == 0
  {
    if ps != [] {
      var n := |ps| - 1;
      UnfinishedBound(ps[..n]);
      assert forall i :: 0 <= i < n ==> ps[..n][i] == ps[i];
      assert AllDone(ps) <==> AllDone(ps[..n]) && ps[n].done;
    }
  }

  /** Unfinished processes that have yet to arrive. */
  function Awaited(ps: seq<Proc>, now: int): nat {
    if ps == [] then 0
    else Awaited(ps[..|ps| - 1], now) + if Pending(ps[|ps| - 1], now) then 1 else 0
  }

  /** Later, fewer are awaited, and strictly fewer once a pending one has arrived. */
  lemma {:induction false} AwaitedLater(ps: seq<Proc>, now: int, later: int)
    requires now <= later
    ensures Awaited(ps, later) <= Awaited(ps, now) <= |ps|
    ensures (exists i :: 0 <= i < |ps| && Pending(ps[i], now) && ps[i].Arrives() <= later)
            ==> Awaited(ps, later) < Awaited(ps, now)
  {
    if ps != [] {
      var n := |ps| - 1;
      AwaitedLater(ps[..n], now, later);
      if i :| 0 <= i < |ps| && Pending(ps[i], now) && ps[i].Arrives() <= later {
        if i < n {
          assert ps[..n][i] == ps[i];
        }
      }
    }
  }

  lemma {:induction false} AwaitedUpdate(ps: seq<Proc>, now: int, k: nat, p: Proc)
    requires k < |ps| && !Pending(ps[k], now) && !Pending(p, now)
    ensures Awaited(ps[k := p], now) == Awaited(ps, now)
  {
    var n := |ps| - 1;
    if k < n {
      AwaitedUpdate(ps[..n], now, k, p);
      assert ps[k := p][..n] == ps[..n][k := p];
    } else {
      assert ps[k := p][..n] == ps[..n];
    }
  }

  // ---------------------------------------------------------------- waiting for work

  /** If no process is ready the CPU idles until the next arrival. */
  function WaitForArrival(c: Cpu): (w: Cpu)
    requires !AllDone(c.ps)
    ensures w.ps == c.ps && w.prev == c.prev
    ensures AnyReady(w.ps, w.now)
  {
    if AnyReady(c.ps, c.now) then c
    else
      NextArrivalExists(c.ps, c.now);
      var nx := NextArrival(c.ps, c.now, |c.ps|);
      assert Ready(c.ps[nx], c.ps[nx].Arrives());
      IdleUntil(c, c.ps[nx].Arrives())
  }

  lemma WaitAccounted(c: Cpu)
    requires !AllDone(c.ps) && Accounted(c) && !EndsWith(c.segs, SWITCH)
    ensures Accounted(WaitForArrival(c)) && !EndsWith(WaitForArrival(c).segs, SWITCH)
    ensures c.now <= WaitForArrival(c).now
  {
    if !AnyReady(c.ps, c.now) {
      NextArrivalExists(c.ps, c.now);
      IdleAccounted(c, c.ps[NextArrival(c.ps, c.now, |c.ps|)].Arrives());
    }
  }

  function Max(a: int, b: int): int {
    if a < b then b else a
  }

  /** The wait ends with the arrival of the earliest unfinished process. */
  lemma WaitsForHead(c: Cpu, i: nat)
    requires i < |c.ps| && !c.ps[i].done && !AllDone(c.ps)
    requires forall j :: 0 <= j < |c.ps| && !c.ps[j].done ==> c.ps[i].arrival <= c.ps[j].arrival
    ensures WaitForArrival(c).now == Max(c.now, c.ps[i].Arrives())
  {
    if AnyReady(c.ps, c.now) {
      var j :| 0 <= j < |c.ps| && Ready(c.ps[j], c.now);
      assert c.ps[i].arrival <= c.ps[j].arrival;
    } else {
      assert !Ready(c.ps[i], c.now);
      NextArrivalExists(c.ps, c.now);
    }
  }
}

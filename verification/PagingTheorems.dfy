/** What holds of the four policies over whole runs. */
module PagingTheorems {
  import opened Sets
  import opened DemandPaging
  import OptPolicy
  import FifoPolicy
  import LruPolicy
  import ClockPolicy

  datatype Policy = Opt | Fifo | Lru | Clock

  /** The pages held before reference k. */
  ghost function Frames(pol: Policy, F: nat, refs: seq<Page>, k: nat): seq<Page>
    requires 1 <= F && k <= |refs|
  {
    match pol
    case Opt => OptPolicy.After(F, refs, k)
    case Fifo => FifoPolicy.After(F, refs, k)
    case Lru => LruPolicy.After(F, refs, k)
    case Clock => ClockPolicy.Pages(ClockPolicy.After(F, refs, k))
  }

  /** The caches before references 0, ..., n. */
  ghost function Caches(pol: Policy, F: nat, refs: seq<Page>, n: nat): (cs: seq<set<Page>>)
    requires 1 <= F && n <= |refs|
    ensures |cs| == n + 1
  {
    if n == 0 then [{}] else Caches(pol, F, refs, n - 1) + [Elems(Frames(pol, F, refs, n))]
  }

  lemma FramesStart(pol: Policy, F: nat, refs: seq<Page>)
    requires 1 <= F
    ensures Frames(pol, F, refs, 0) == []
  {}

  lemma {:induction false} CacheAt(pol: Policy, F: nat, refs: seq<Page>, n: nat, k: nat)
    requires 1 <= F && k <= n <= |refs|
    ensures Caches(pol, F, refs, n)[k] == Elems(Frames(pol, F, refs, k))
  {
    hide Frames;
    if k < n {
      CacheAt(pol, F, refs, n - 1, k);
    } else if k == 0 {
      FramesStart(pol, F, refs);
    }
  }

  /** Page faults on the first k references. */
  ghost function FaultsUpTo(pol: Policy, F: nat, refs: seq<Page>, k: nat): nat
    requires 1 <= F && k <= |refs|
  {
    Faults(refs, Caches(pol, F, refs, |refs|), 0, k)
  }

  ghost function PageFaults(pol: Policy, F: nat, refs: seq<Page>): nat
    requires 1 <= F
  {
    FaultsUpTo(pol, F, refs, |refs|)
  }

  lemma FaultStep(pol: Policy, F: nat, refs: seq<Page>, k: nat)
    requires 1 <= F && k < |refs|
    ensures FaultsUpTo(pol, F, refs, k + 1)
         == FaultsUpTo(pol, F, refs, k) + if refs[k] in Frames(pol, F, refs, k) then 0 else 1
  {
    CacheAt(pol, F, refs, |refs|, k);
  }

  // ---------------------------------------------------------------- every policy is a schedule

  lemma FramesServe(pol: Policy, F: nat, refs: seq<Page>, k: nat)
    requires 1 <= F && k < |refs|
    ensures Serves(F, Elems(Frames(pol, F, refs, k)), refs[k], Elems(Frames(pol, F, refs, k + 1)))
  {
    match pol {
      case Opt => OptPolicy.StepServes(F, refs, k);
      case Fifo => FifoPolicy.StepServes(F, refs, k);
      case Lru => LruPolicy.StepServes(F, refs, k);
      case Clock => ClockPolicy.StepServes(F, refs, k);
    }
  }

  lemma ServedStep(pol: Policy, F: nat, refs: seq<Page>, k: nat)
    requires 1 <= F && k < |refs|
    ensures ServedAt(F, refs, Caches(pol, F, refs, |refs|), k)
  {
    FramesServe(pol, F, refs, k);
    CacheAt(pol, F, refs, |refs|, k);
    CacheAt(pol, F, refs, |refs|, k + 1);
  }

  lemma IsSchedule(pol: Policy, F: nat, refs: seq<Page>)
    requires 1 <= F
    ensures Schedule(F, refs, Caches(pol, F, refs, |refs|))
  {
    CacheAt(pol, F, refs, |refs|, 0);
    forall k | 0 <= k < |refs| ensures ServedAt(F, refs, Caches(pol, F, refs, |refs|), k) {
      ServedStep(pol, F, refs, k);
    }
  }

  // ---------------------------------------------------------------- OPT

  lemma OptimalStep(F: nat, refs: seq<Page>, ds: seq<set<Page>>, k: nat, lead: int)
    requires 1 <= F && k < |refs|
    requires Schedule(F, refs, ds)
    requires OptPolicy.Covers(Elems(Frames(Opt, F, refs, k)), ds[k], [refs[k]] + refs[k + 1..], lead)
    ensures OptPolicy.Covers(Elems(Frames(Opt, F, refs, k + 1)), ds[k + 1], refs[k + 1..],
                             lead + (if Fault(refs, ds, k) then 1 else 0)
                             - if refs[k] in Frames(Opt, F, refs, k) then 0 else 1)
  {
    var before, after := Elems(Frames(Opt, F, refs, k)), Elems(Frames(Opt, F, refs, k + 1));
    OptPolicy.StepShape(F, refs, k);
    assert ServedAt(F, refs, ds, k);
    OptPolicy.CoversStep(F, before, after, ds[k], ds[k + 1], refs[k], refs[k + 1..], lead);
  }

  /** At every point the rival's extra faults pay for everything it still has in advance. */
  lemma {:induction false} OptimalUpTo(F: nat, refs: seq<Page>, ds: seq<set<Page>>, k: nat)
    requires 1 <= F && k <= |refs|
    requires Schedule(F, refs, ds)
    ensures OptPolicy.Covers(Elems(Frames(Opt, F, refs, k)), ds[k], refs[k..],
                             Faults(refs, ds, 0, k) - FaultsUpTo(Opt, F, refs, k))
  {
    if k == 0 {
      OptPolicy.NothingAhead(refs[0..]);
    } else {
      OptimalUpTo(F, refs, ds, k - 1);
      assert refs[k - 1..] == [refs[k - 1]] + refs[k..];
      FaultStep(Opt, F, refs, k - 1);
      OptimalStep(F, refs, ds, k - 1, Faults(refs, ds, 0, k - 1) - FaultsUpTo(Opt, F, refs, k - 1));
    }
  }

  /** Belady's theorem: no schedule with F frames, offline or not, faults less often. */
  lemma OptIsOptimal(F: nat, refs: seq<Page>, ds: seq<set<Page>>)
    requires 1 <= F
    requires Schedule(F, refs, ds)
    ensures PageFaults(Opt, F, refs) <= Faults(refs, ds, 0, |refs|)
  {
    var n := |refs|;
    OptimalUpTo(F, refs, ds, n);
    var none := Elems(refs[n..][..0]);
    assert none == {};
    assert |ds[n] * none| == 0 && |Elems(Frames(Opt, F, refs, n)) * none| == 0;
  }

  lemma OptBeatsEveryPolicy(pol: Policy, F: nat, refs: seq<Page>)
    requires 1 <= F
    ensures PageFaults(Opt, F, refs) <= PageFaults(pol, F, refs)
  {
    IsSchedule(pol, F, refs);
    OptIsOptimal(F, refs, Caches(pol, F, refs, |refs|));
  }

  lemma WiderSchedule(F: nat, G: nat, refs: seq<Page>, ds: seq<set<Page>>)
    requires F <= G && Schedule(F, refs, ds)
    ensures Schedule(G, refs, ds)
  {
    forall k | 0 <= k < |refs| ensures ServedAt(G, refs, ds, k) {
      assert ServedAt(F, refs, ds, k);
    }
  }

  /** More frames never cost OPT a fault, nor any policy with fewer frames. */
  lemma OptWithMoreFrames(pol: Policy, F: nat, G: nat, refs: seq<Page>)
    requires 1 <= F <= G
    ensures PageFaults(Opt, G, refs) <= PageFaults(pol, F, refs)
  {
    IsSchedule(pol, F, refs);
    WiderSchedule(F, G, refs, Caches(pol, F, refs, |refs|));
    OptIsOptimal(G, refs, Caches(pol, F, refs, |refs|));
  }

  // ---------------------------------------------------------------- FIFO, LRU and Clock

  lemma LoadedStays(pol: Policy, F: nat, refs: seq<Page>, k: nat, m: nat)
    requires 1 <= F && !pol.Opt? && k < m <= |refs|
    requires Fault(refs, Caches(pol, F, refs, |refs|), k) && |Window(refs, k, m)| <= F
    ensures refs[k] in Caches(pol, F, refs, |refs|)[m]
  {
    CacheAt(pol, F, refs, |refs|, k);
    CacheAt(pol, F, refs, |refs|, m);
    match pol {
      case Fifo => FifoPolicy.Stays(F, refs, k, m);
      case Lru => LruPolicy.Stays(F, refs, k, m);
      case Clock => ClockPolicy.Stays(F, refs, k, m);
    }
  }

  /** FIFO, LRU and Clock fault at most once per page in a window of at most F pages. */
  lemma OnlinePoliciesConservative(pol: Policy, F: nat, refs: seq<Page>)
    requires 1 <= F && !pol.Opt?
    ensures Conservative(F, refs, Caches(pol, F, refs, |refs|))
  {
    var cs := Caches(pol, F, refs, |refs|);
    assert KeepsLoaded(F, refs, cs) by {
      forall k: nat, m: nat | k < m <= |refs| && Fault(refs, cs, k) && |Window(refs, k, m)| <= F
        ensures refs[k] in cs[m]
      {
        LoadedStays(pol, F, refs, k, m);
      }
    }
    KeepsLoadedIsConservative(F, refs, cs);
  }

  /** FIFO, LRU and Clock fault at most F times as often as any schedule with F frames, OPT's included. */
  lemma OnlinePoliciesCompetitive(pol: Policy, F: nat, refs: seq<Page>, ds: seq<set<Page>>)
    requires 1 <= F && !pol.Opt?
    requires Schedule(F, refs, ds)
    ensures PageFaults(pol, F, refs) <= F * Faults(refs, ds, 0, |refs|)
    ensures PageFaults(pol, F, refs) <= F * PageFaults(Opt, F, refs)
  {
    OnlinePoliciesConservative(pol, F, refs);
    IsSchedule(Opt, F, refs);
    Competitive(F, refs, Caches(pol, F, refs, |refs|), Caches(Opt, F, refs, |refs|));
    Competitive(F, refs, Caches(pol, F, refs, |refs|), ds);
  }

  /** LRU has no Belady anomaly. */
  lemma LruWithMoreFrames(F: nat, G: nat, refs: seq<Page>)
    requires 1 <= F <= G
    ensures PageFaults(Lru, G, refs) <= PageFaults(Lru, F, refs)
  {
    var cs, ds := Caches(Lru, F, refs, |refs|), Caches(Lru, G, refs, |refs|);
    forall k | 0 <= k < |refs| ensures cs[k] <= ds[k] {
      CacheAt(Lru, F, refs, |refs|, k);
      CacheAt(Lru, G, refs, |refs|, k);
      LruPolicy.Inclusion(F, G, refs, k);
    }
    FewerFaults(refs, cs, ds, |refs|);
  }

  // ---------------------------------------------------------------- Clock hand

  /** Hand movements on the first k references. */
  function TotalHandSteps(F: nat, refs: seq<Page>, k: nat): nat
    requires 1 <= F && k <= |refs|
  {
    if k == 0 then 0
    else
      var clock := ClockPolicy.After(F, refs, k - 1);
      TotalHandSteps(F, refs, k - 1)
      + if refs[k - 1] in ClockPolicy.Pages(clock) || |clock| < F then 0 else ClockPolicy.HandSteps(clock)
  }

  /** Every bit cleared was set by its own reference, so the hand moves at most once per reference and fault. */
  lemma {:induction false} HandStepsAmortised(F: nat, refs: seq<Page>, k: nat)
    requires 1 <= F && k <= |refs|
    ensures TotalHandSteps(F, refs, k) + ClockPolicy.SetBits(ClockPolicy.After(F, refs, k))
         <= k + FaultsUpTo(Clock, F, refs, k)
  {
    hide FaultsUpTo, ClockPolicy.Replace, ClockPolicy.Mark, ClockPolicy.HandSteps, ClockPolicy.SetBits, ClockPolicy.Pages;
    HandStart(F, refs);
    if k > 0 {
      HandStepsAmortised(F, refs, k - 1);
      FaultStep(Clock, F, refs, k - 1);
      BitsAfterStep(F, ClockPolicy.After(F, refs, k - 1), refs[k - 1]);
    }
  }

  lemma HandStart(F: nat, refs: seq<Page>)
    requires 1 <= F
    ensures ClockPolicy.SetBits(ClockPolicy.After(F, refs, 0)) == 0
  {}

  lemma BitsAfterStep(F: nat, clock: seq<ClockPolicy.Slot>, p: Page)
    requires 1 <= F
    ensures var bits, bits' := ClockPolicy.SetBits(clock), ClockPolicy.SetBits(ClockPolicy.Step(F, clock, p));
            if p in ClockPolicy.Pages(clock) then bits' <= bits + 1
            else if |clock| < F then bits' == bits + 1
            else bits' + ClockPolicy.HandSteps(clock) == bits + 2
  {
    if p in ClockPolicy.Pages(clock) {
      ClockPolicy.MarkPages(clock, p);
    } else if |clock| < F {
      ClockPolicy.SetBitsAppend(clock, [ClockPolicy.Slot(p, true)]);
      assert ClockPolicy.SetBits([ClockPolicy.Slot(p, true)]) == 1;
    } else {
      ClockPolicy.SearchCost(clock, p);
    }
  }

  // ---------------------------------------------------------------- Belady's anomaly

  const ANOMALY: seq<Page> := [1, 2, 3, 4, 1, 2, 5, 1, 2, 3, 4, 5]

  /** FIFO holds `queue` after k references of that string, with so many faults. */
  ghost predicate FifoAt(F: nat, k: nat, queue: seq<Page>, faults: nat)
    requires 1 <= F && k <= |ANOMALY|
  {
    FifoPolicy.After(F, ANOMALY, k) == queue && FaultsUpTo(Fifo, F, ANOMALY, k) == faults
  }

  lemma FifoMiss(F: nat, k: nat, queue: seq<Page>, faults: nat, next: seq<Page>)
    requires 1 <= F && k < |ANOMALY| && FifoAt(F, k, queue, faults)
    requires ANOMALY[k] !in queue && next == (if |queue| < F then queue else queue[1..]) + [ANOMALY[k]]
    ensures FifoAt(F, k + 1, next, faults + 1)
  {
    FaultStep(Fifo, F, ANOMALY, k);
  }

  lemma FifoHit(F: nat, k: nat, queue: seq<Page>, faults: nat)
    requires 1 <= F && k < |ANOMALY| && FifoAt(F, k, queue, faults)
    requires ANOMALY[k] in queue
    ensures FifoAt(F, k + 1, queue, faults)
  {
    FaultStep(Fifo, F, ANOMALY, k);
  }

  lemma FirstWith3Frames()
    ensures FifoAt(3, 4, [2, 3, 4], 4)
  {
    hide FifoAt;
    AnomalyStart(3);
    FifoMiss(3, 0, [], 0, [1]);
    FifoMiss(3, 1, [1], 1, [1, 2]);
    FifoMiss(3, 2, [1, 2], 2, [1, 2, 3]);
    FifoMiss(3, 3, [1, 2, 3], 3, [2, 3, 4]);
  }

  lemma MiddleWith3Frames()
    ensures FifoAt(3, 8, [1, 2, 5], 7)
  {
    hide FifoAt;
    FirstWith3Frames();
    FifoMiss(3, 4, [2, 3, 4], 4, [3, 4, 1]);
    FifoMiss(3, 5, [3, 4, 1], 5, [4, 1, 2]);
    FifoMiss(3, 6, [4, 1, 2], 6, [1, 2, 5]);
    FifoHit(3, 7, [1, 2, 5], 7);
  }

  lemma LastWith3Frames()
    ensures FifoAt(3, 12, [5, 3, 4], 9)
  {
    hide FifoAt;
    MiddleWith3Frames();
    FifoHit(3, 8, [1, 2, 5], 7);
    FifoMiss(3, 9, [1, 2, 5], 7, [2, 5, 3]);
    FifoMiss(3, 10, [2, 5, 3], 8, [5, 3, 4]);
    FifoHit(3, 11, [5, 3, 4], 9);
  }

  lemma FirstWith4Frames()
    ensures FifoAt(4, 4, [1, 2, 3, 4], 4)
  {
    hide FifoAt;
    AnomalyStart(4);
    FifoMiss(4, 0, [], 0, [1]);
    FifoMiss(4, 1, [1], 1, [1, 2]);
    FifoMiss(4, 2, [1, 2], 2, [1, 2, 3]);
    FifoMiss(4, 3, [1, 2, 3], 3, [1, 2, 3, 4]);
  }

  lemma MiddleWith4Frames()
    ensures FifoAt(4, 8, [3, 4, 5, 1], 6)
  {
    hide FifoAt;
    FirstWith4Frames();
    FifoHit(4, 4, [1, 2, 3, 4], 4);
    FifoHit(4, 5, [1, 2, 3, 4], 4);
    FifoMiss(4, 6, [1, 2, 3, 4], 4, [2, 3, 4, 5]);
    FifoMiss(4, 7, [2, 3, 4, 5], 5, [3, 4, 5, 1]);
  }

  lemma LastWith4Frames()
    ensures FifoAt(4, 12, [2, 3, 4, 5], 10)
  {
    hide FifoAt;
    MiddleWith4Frames();
    FifoMiss(4, 8, [3, 4, 5, 1], 6, [4, 5, 1, 2]);
    FifoMiss(4, 9, [4, 5, 1, 2], 7, [5, 1, 2, 3]);
    FifoMiss(4, 10, [5, 1, 2, 3], 8, [1, 2, 3, 4]);
    FifoMiss(4, 11, [1, 2, 3, 4], 9, [2, 3, 4, 5]);
  }

  lemma AnomalyStart(F: nat)
    requires 1 <= F
    ensures FifoAt(F, 0, [], 0)
  {}

  /** FIFO has one: a fourth frame can cost a fault. */
  lemma FifoWithMoreFrames()
    ensures PageFaults(Fifo, 3, ANOMALY) == 9
    ensures PageFaults(Fifo, 4, ANOMALY) == 10
  {
    LastWith3Frames();
    LastWith4Frames();
  }

  /** How bad more frames can be: never worse than this against any policy with fewer. */
  lemma AnomalyBounded(pol: Policy, rival: Policy, F: nat, G: nat, refs: seq<Page>)
    requires 1 <= F <= G && !pol.Opt?
    ensures PageFaults(pol, G, refs) <= G * PageFaults(rival, F, refs)
    ensures (G - F + 1) * PageFaults(pol, G, refs) <= G * (PageFaults(rival, F, refs) + G - F)
  {
    hide Caches;
    IsSchedule(rival, F, refs);
    var ds := Caches(rival, F, refs, |refs|);
    OnlinePoliciesConservative(pol, G, refs);
    ConservativeVersus(F, G, refs, Caches(pol, G, refs, |refs|), ds);
    WiderSchedule(F, G, refs, ds);
    Competitive(G, refs, Caches(pol, G, refs, |refs|), ds);
  }
}

/** How an input string reaches the policies, with -1 as the mark of an unused frame. */
module PagingInput {
  import opened Sets
  import opened DemandPaging
  import opened PagingTheorems
  import OptPolicy
  import FifoPolicy
  import LruPolicy
  import ClockPolicy

  /** Content of an unused frame.  The page search compares unused frames too. */
  const EMPTY: Page := -1

  /**
   The references that reach the replacement logic.  A reference to page -1
   matches an unused frame and counts as a hit, so it is lost as long as fewer
   than F other pages have been seen; everything else is processed.
   */
  function Strip(F: nat, refs: seq<Page>, t: nat): (s: seq<Page>)
    requires t <= |refs|
    ensures |s| <= t
  {
    if t == 0 then []
    else
      var s := Strip(F, refs, t - 1);
      if refs[t - 1] == EMPTY && |Elems(s)| < F then s else s + [refs[t - 1]]
  }

  /** Every -1 of the first t references comes after F distinct pages. */
  ghost predicate LateSentinels(F: nat, refs: seq<Page>, t: nat)
    requires t <= |refs|
  {
    forall k :: 0 <= k < t && refs[k] == -1 ==> |Window(refs, 0, k)| >= F
  }

  lemma {:induction false} StripNothing(F: nat, refs: seq<Page>, t: nat)
    requires t <= |refs| && LateSentinels(F, refs, t)
    ensures Strip(F, refs, t) == refs[..t]
  {
    if t > 0 {
      assert refs[..t] == refs[..t - 1] + [refs[t - 1]];
      StripNothing(F, refs, t - 1);
      assert refs[0..t - 1] == refs[..t - 1];
    }
  }

  lemma {:induction false} StripWithin(F: nat, refs: seq<Page>, t: nat)
    requires t <= |refs|
    ensures Elems(Strip(F, refs, t)) <= Window(refs, 0, t)
    ensures |Elems(Strip(F, refs, t))| <= |Window(refs, 0, t)|
  {
    if t > 0 {
      StripWithin(F, refs, t - 1);
      WindowGrows(refs, 0, t - 1);
      ElemsAppend(Strip(F, refs, t - 1), [refs[t - 1]]);
    }
    SubsetCard(Elems(Strip(F, refs, t)), Window(refs, 0, t));
  }

  lemma {:induction false} StripLength(F: nat, refs: seq<Page>, t: nat, n: nat)
    requires t <= n <= |refs|
    ensures |Strip(F, refs, n)| <= |Strip(F, refs, t)| + n - t
    decreases n
  {
    if t < n {
      StripLength(F, refs, t, n - 1);
    }
  }

  /** The policies see the whole input exactly when no -1 finds an unused frame. */
  lemma NothingLostIff(F: nat, refs: seq<Page>)
    ensures Served(F, refs) == refs <==> LateSentinels(F, refs, |refs|)
  {
    hide Strip, Window;
    if LateSentinels(F, refs, |refs|) {
      StripNothing(F, refs, |refs|);
      assert refs[..|refs|] == refs;
    } else {
      var k :| 0 <= k < |refs| && refs[k] == EMPTY && |Window(refs, 0, k)| < F;
      SentinelLost(F, refs, k);
      StripLength(F, refs, k + 1, |refs|);
    }
  }

  predicate NonNegative(refs: seq<Page>) {
    forall k :: 0 <= k < |refs| ==> refs[k] >= 0
  }

  /** Page numbers that are not negative are never lost. */
  lemma PlainInput(F: nat, refs: seq<Page>)
    ensures NonNegative(refs) ==> Served(F, refs) == refs
  {
    NothingLostIff(F, refs);
  }

  lemma SentinelLost(F: nat, refs: seq<Page>, k: nat)
    requires k < |refs| && refs[k] == EMPTY && |Window(refs, 0, k)| < F
    ensures Position(F, refs, k + 1) == Position(F, refs, k) <= k
  {
    StripWithin(F, refs, k);
  }

  lemma {:induction false} StripPrefix(F: nat, refs: seq<Page>, t: nat, n: nat)
    requires t <= n <= |refs|
    ensures Strip(F, refs, t) <= Strip(F, refs, n)
    ensures |Elems(Strip(F, refs, t))| >= F ==> Strip(F, refs, n) == Strip(F, refs, t) + refs[t..n]
    decreases n
  {
    if t < n {
      StripPrefix(F, refs, t, n - 1);
      if |Elems(Strip(F, refs, t))| >= F {
        SubsetCard(Elems(Strip(F, refs, t)), Elems(Strip(F, refs, n - 1)));
        assert refs[t..n] == refs[t..n - 1] + [refs[n - 1]];
      }
    }
  }

  lemma {:induction false} StripSentinelFree(F: nat, refs: seq<Page>, t: nat)
    requires t <= |refs| && |Elems(Strip(F, refs, t))| < F
    ensures EMPTY !in Strip(F, refs, t)
  {
    if t > 0 {
      SubsetCard(Elems(Strip(F, refs, t - 1)), Elems(Strip(F, refs, t)));
      StripSentinelFree(F, refs, t - 1);
    }
  }

  lemma FramesDistinct(pol: Policy, F: nat, s: seq<Page>, k: nat)
    requires 1 <= F && k <= |s|
    ensures |Frames(pol, F, s, k)| <= F && Distinct(Frames(pol, F, s, k))
  {
    match pol {
      case Opt => OptPolicy.FramesDistinct(F, s, k);
      case Fifo => FifoPolicy.QueueDistinct(F, s, k);
      case Lru => LruPolicy.StackSize(F, s, k);
      case Clock => ClockPolicy.ClockDistinct(F, s, k);
    }
  }

  /** The frames hold pages seen so far, and all of them while a frame is free. */
  lemma {:induction false} FillPhase(pol: Policy, F: nat, s: seq<Page>, k: nat)
    requires 1 <= F && k <= |s|
    ensures Elems(Frames(pol, F, s, k)) <= Window(s, 0, k)
    ensures |Frames(pol, F, s, k)| < F ==> Elems(Frames(pol, F, s, k)) == Window(s, 0, k)
  {
    hide Frames;
    if k == 0 {
      FramesStart(pol, F, s);
    } else {
      FillPhase(pol, F, s, k - 1);
      WindowGrows(s, 0, k - 1);
      FramesServe(pol, F, s, k - 1);
      FramesDistinct(pol, F, s, k - 1);
      FrameGrowth(pol, F, s, k - 1);
    }
  }

  /** While a frame is free, nothing is evicted. */
  lemma FrameGrowth(pol: Policy, F: nat, s: seq<Page>, k: nat)
    requires 1 <= F && k < |s| && |Frames(pol, F, s, k)| <= F
    ensures |Frames(pol, F, s, k)| <= |Frames(pol, F, s, k + 1)|
    ensures |Frames(pol, F, s, k)| < F ==> Elems(Frames(pol, F, s, k)) <= Elems(Frames(pol, F, s, k + 1))
  {
    var p := s[k];
    match pol {
      case Opt =>
      case Fifo =>
      case Lru =>
        LruPolicy.StackSize(F, s, k);
        LruPolicy.RemoveDistinct(LruPolicy.After(F, s, k), p);
        ElemsAppend([p], LruPolicy.Remove(LruPolicy.After(F, s, k), p));
      case Clock =>
        var clock := ClockPolicy.After(F, s, k);
        ClockPolicy.ClockDistinct(F, s, k);
        if p in ClockPolicy.Pages(clock) {
          ClockPolicy.MarkPages(clock, p);
        } else if |clock| < F {
          ClockPolicy.PagesAppend(clock, [ClockPolicy.Slot(p, true)]);
        } else {
          ClockPolicy.ReplacePages(clock, p);
        }
    }
  }

  /** All the references that count. */
  function Served(F: nat, refs: seq<Page>): seq<Page> {
    Strip(F, refs, |refs|)
  }

  /** How many of them come before input position t. */
  function Position(F: nat, refs: seq<Page>, t: nat): (k: nat)
    requires t <= |refs|
  {
    |Strip(F, refs, t)|
  }

  lemma PositionBound(F: nat, refs: seq<Page>, t: nat)
    requires t <= |refs|
    ensures Position(F, refs, t) <= |Served(F, refs)|
    ensures Served(F, refs)[..Position(F, refs, t)] == Strip(F, refs, t)
  {
    StripPrefix(F, refs, t, |refs|);
  }

  /** The next input is either lost to an unused frame or the next reference served. */
  lemma NextReference(pol: Policy, F: nat, refs: seq<Page>, t: nat)
    requires 1 <= F && t < |refs|
    ensures var s, k, p := Served(F, refs), Position(F, refs, t), refs[t];
            && k <= |s|
            && var held := Frames(pol, F, s, k);
            && |held| <= F && Distinct(held) && (|held| < F ==> EMPTY !in held)
            && if p == EMPTY && |held| < F then
                 Position(F, refs, t + 1) == k
               else
                 k < |s| && s[k] == p && Position(F, refs, t + 1) == k + 1
  {
    var s, k := Served(F, refs), Position(F, refs, t);
    PositionBound(F, refs, t);
    PositionBound(F, refs, t + 1);
    FillIffFewPages(pol, F, s, k);
    assert s[0..k] == Strip(F, refs, t);
    if |Frames(pol, F, s, k)| < F {
      StripSentinelFree(F, refs, t);
      assert EMPTY !in Elems(Frames(pol, F, s, k));
    }
    if !(refs[t] == EMPTY && |Elems(Strip(F, refs, t))| < F) {
      assert Strip(F, refs, t + 1)[k] == refs[t];
      assert s[..k + 1][k] == s[k];
    }
  }

  lemma FillIffFewPages(pol: Policy, F: nat, s: seq<Page>, k: nat)
    requires 1 <= F && k <= |s|
    ensures |Frames(pol, F, s, k)| <= F && Distinct(Frames(pol, F, s, k))
    ensures |Frames(pol, F, s, k)| < F <==> |Window(s, 0, k)| < F
    ensures |Frames(pol, F, s, k)| < F ==> Elems(Frames(pol, F, s, k)) == Window(s, 0, k)
  {
    FramesDistinct(pol, F, s, k);
    FillPhase(pol, F, s, k);
    ElemsCard(Frames(pol, F, s, k));
    SubsetCard(Elems(Frames(pol, F, s, k)), Window(s, 0, k));
  }

  lemma Start(pol: Policy, F: nat, refs: seq<Page>)
    requires 1 <= F
    ensures Position(F, refs, 0) == 0
    ensures Frames(pol, F, Served(F, refs), 0) == []
    ensures FaultsUpTo(pol, F, Served(F, refs), 0) == 0
  {}

  // ---------------------------------------------------------------- what the lost references cost

  lemma {:induction false} CacheWithinWindow(F: nat, refs: seq<Page>, ds: seq<set<Page>>, t: nat)
    requires Schedule(F, refs, ds) && t <= |refs|
    ensures ds[t] <= Window(refs, 0, t)
  {
    if t > 0 {
      CacheWithinWindow(F, refs, ds, t - 1);
      WindowGrows(refs, 0, t - 1);
      assert ServedAt(F, refs, ds, t - 1);
    }
  }

  /** The first -1, when it is lost, costs the simulator nothing and every real schedule a fault. */
  lemma SentinelIsFree(pol: Policy, F: nat, refs: seq<Page>, ds: seq<set<Page>>, k: nat)
    requires 1 <= F && Schedule(F, refs, ds)
    requires k < |refs| && refs[k] == EMPTY && EMPTY !in refs[..k] && |Window(refs, 0, k)| < F
    ensures Position(F, refs, k) <= |Served(F, refs)| && Position(F, refs, k + 1) <= |Served(F, refs)|
    ensures FaultsUpTo(pol, F, Served(F, refs), Position(F, refs, k + 1))
         == FaultsUpTo(pol, F, Served(F, refs), Position(F, refs, k))
    ensures Fault(refs, ds, k)
  {
    SentinelLost(F, refs, k);
    PositionBound(F, refs, k);
    CacheWithinWindow(F, refs, ds, k);
    assert refs[0..k] == refs[..k];
  }

  ghost function Without(cache: set<Page>): set<Page> {
    cache - {EMPTY}
  }

  ghost function FaultsOf(refs: seq<Page>, cs: seq<set<Page>>): nat
    requires |cs| == |refs| + 1
  {
    Faults(refs, cs, 0, |refs|)
  }

  /**
   `es` serves the stripped prefix as cheaply as `ds` serves the input: until
   the first -1 that counts it holds what `ds` holds less page -1, and a -1
   cached by `ds` has been paid for there but not here.
   */
  ghost predicate Follows(F: nat, refs: seq<Page>, ds: seq<set<Page>>, t: nat, es: seq<set<Page>>)
    requires t <= |refs| && |ds| == |refs| + 1
  {
    var s := Strip(F, refs, t);
    && Schedule(F, s, es)
    && if EMPTY in s then
         ds[t] <= es[|s|] && FaultsOf(s, es) <= Faults(refs, ds, 0, t)
       else
         Without(ds[t]) <= es[|s|] && FaultsOf(s, es) + (if EMPTY in ds[t] then 1 else 0) <= Faults(refs, ds, 0, t)
  }

  /** A schedule grows by one reference at its end. */
  lemma ScheduleGrows(F: nat, s: seq<Page>, es: seq<set<Page>>, p: Page, cache: set<Page>)
    requires Schedule(F, s, es) && Serves(F, es[|s|], p, cache)
    ensures Schedule(F, s + [p], es + [cache])
    ensures FaultsOf(s + [p], es + [cache]) == FaultsOf(s, es) + if p in es[|s|] then 0 else 1
  {
    var s', es' := s + [p], es + [cache];
    forall k | 0 <= k < |s'| ensures ServedAt(F, s', es', k) {
      if k < |s| {
        assert ServedAt(F, s, es, k);
      }
    }
    FaultsPrefix(s, es, p, cache, |s|);
    assert Fault(s', es', |s|) <==> p !in es[|s|];
  }

  lemma {:induction false} FaultsPrefix(s: seq<Page>, es: seq<set<Page>>, p: Page, cache: set<Page>, j: nat)
    requires |es| == |s| + 1 && j <= |s|
    ensures Faults(s + [p], es + [cache], 0, j) == Faults(s, es, 0, j)
  {
    if j > 0 {
      FaultsPrefix(s, es, p, cache, j - 1);
      assert Fault(s + [p], es + [cache], j - 1) <==> Fault(s, es, j - 1);
    }
  }

  lemma FollowLost(F: nat, refs: seq<Page>, ds: seq<set<Page>>, t: nat, es: seq<set<Page>>)
    requires t < |refs| && Schedule(F, refs, ds) && Follows(F, refs, ds, t, es)
    requires refs[t] == EMPTY && |Elems(Strip(F, refs, t))| < F
    ensures Follows(F, refs, ds, t + 1, es)
  {
    hide Schedule;
    StripSentinelFree(F, refs, t);
    ServedHere(F, refs, ds, t);
    assert Fault(refs, ds, t) <==> EMPTY !in ds[t];
  }

  lemma ServedHere(F: nat, refs: seq<Page>, ds: seq<set<Page>>, t: nat)
    requires t < |refs| && Schedule(F, refs, ds)
    ensures |ds| == |refs| + 1 && Serves(F, ds[t], refs[t], ds[t + 1])
  {
    assert ServedAt(F, refs, ds, t);
  }

  lemma FollowServed(F: nat, refs: seq<Page>, ds: seq<set<Page>>, t: nat, es: seq<set<Page>>) returns (es': seq<set<Page>>)
    requires t < |refs| && Schedule(F, refs, ds) && Follows(F, refs, ds, t, es)
    requires !(refs[t] == EMPTY && |Elems(Strip(F, refs, t))| < F)
    ensures Follows(F, refs, ds, t + 1, es')
  {
    hide Schedule;
    var s, p := Strip(F, refs, t), refs[t];
    ServedHere(F, refs, ds, t);
    var cache := if EMPTY in s + [p] then ds[t + 1] else Without(ds[t + 1]);
    SubsetCard(cache, ds[t + 1]);
    assert Fault(refs, ds, t) <==> p !in ds[t];
    ScheduleLength(F, s, es);
    ScheduleGrows(F, s, es, p, cache);
    es' := es + [cache];
    assert es'[|s| + 1] == cache;
  }

  lemma ScheduleLength(F: nat, s: seq<Page>, es: seq<set<Page>>)
    requires Schedule(F, s, es)
    ensures |es| == |s| + 1
  {}

  lemma {:induction false} FollowAll(F: nat, refs: seq<Page>, ds: seq<set<Page>>, t: nat) returns (es: seq<set<Page>>)
    requires t <= |refs| && Schedule(F, refs, ds)
    ensures Follows(F, refs, ds, t, es)
  {
    if t == 0 {
      es := [{}];
    } else {
      es := FollowAll(F, refs, ds, t - 1);
      if refs[t - 1] == EMPTY && |Elems(Strip(F, refs, t - 1))| < F {
        FollowLost(F, refs, ds, t - 1, es);
      } else {
        es := FollowServed(F, refs, ds, t - 1, es);
      }
    }
  }

  /** Losing references only makes OPT's count smaller: it stays a lower bound for the whole input. */
  lemma OptNeverOvercounts(F: nat, refs: seq<Page>, ds: seq<set<Page>>)
    requires 1 <= F && Schedule(F, refs, ds)
    ensures PageFaults(Opt, F, Served(F, refs)) <= Faults(refs, ds, 0, |refs|)
  {
    hide PageFaults, Strip;
    var es := FollowAll(F, refs, ds, |refs|);
    OptIsOptimal(F, Served(F, refs), es);
  }
}

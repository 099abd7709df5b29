/**
 Demand paging in the abstract: a schedule is the sequence of cache contents
 of any replacement policy, offline ones included.  Every policy of the
 simulator is shown to be one, so a statement about all schedules with F
 frames is a statement about all of them.
 */
module DemandPaging {
  import opened Sets

  type Page = int

  /** One reference: `p` ends up cached, nothing else is loaded, at most F pages stay. */
  ghost predicate Serves(F: nat, before: set<Page>, p: Page, after: set<Page>) {
    p in after && after <= before + {p} && |after| <= F
  }

  ghost predicate ServedAt(F: nat, refs: seq<Page>, cs: seq<set<Page>>, k: nat)
    requires k < |refs| && |cs| == |refs| + 1
  {
    Serves(F, cs[k], refs[k], cs[k + 1])
  }

  /** `cs[k]` is the cache just before reference k; the run starts empty. */
  ghost predicate Schedule(F: nat, refs: seq<Page>, cs: seq<set<Page>>) {
    && |cs| == |refs| + 1
    && cs[0] == {}
    && forall k :: 0 <= k < |refs| ==> ServedAt(F, refs, cs, k)
  }

  ghost predicate Fault(refs: seq<Page>, cs: seq<set<Page>>, k: nat)
    requires k < |refs| && |cs| == |refs| + 1
  {
    refs[k] !in cs[k]
  }

  /** Page faults on the references i, ..., j-1. */
  ghost function Faults(refs: seq<Page>, cs: seq<set<Page>>, i: nat, j: nat): nat
    requires i <= j <= |refs| && |cs| == |refs| + 1
    decreases j
  {
    if i == j then 0
    else Faults(refs, cs, i, j - 1) + if Fault(refs, cs, j - 1) then 1 else 0
  }

  lemma {:induction false} FaultsSplit(refs: seq<Page>, cs: seq<set<Page>>, i: nat, m: nat, j: nat)
    requires i <= m <= j <= |refs| && |cs| == |refs| + 1
    ensures Faults(refs, cs, i, j) == Faults(refs, cs, i, m) + Faults(refs, cs, m, j)
    decreases j
  {
    if m < j {
      FaultsSplit(refs, cs, i, m, j - 1);
    }
  }

  /** If every hit of one run is a hit of the other, the other faults no more. */
  lemma {:induction false} FewerFaults(refs: seq<Page>, cs: seq<set<Page>>, ds: seq<set<Page>>, j: nat)
    requires j <= |refs| && |cs| == |refs| + 1 && |ds| == |refs| + 1
    requires forall k :: 0 <= k < j ==> cs[k] <= ds[k]
    ensures Faults(refs, ds, 0, j) <= Faults(refs, cs, 0, j)
  {
    if j > 0 {
      FewerFaults(refs, cs, ds, j - 1);
      assert cs[j - 1] <= ds[j - 1];
    }
  }

  /** Pages referenced in the window i, ..., j-1. */
  function Window(refs: seq<Page>, i: nat, j: nat): set<Page>
    requires i <= j <= |refs|
  {
    Elems(refs[i..j])
  }

  lemma WindowEmpty(refs: seq<Page>, i: nat)
    requires i <= |refs|
    ensures Window(refs, i, i) == {}
  {}

  lemma WindowGrows(refs: seq<Page>, i: nat, j: nat)
    requires i <= j < |refs|
    ensures Window(refs, i, j + 1) == Window(refs, i, j) + {refs[j]}
    ensures |Window(refs, i, j)| <= |Window(refs, i, j + 1)| <= |Window(refs, i, j)| + 1
  {
    assert refs[i..j + 1] == refs[i..j] + [refs[j]];
    SubsetCard(Window(refs, i, j), Window(refs, i, j + 1));
  }

  lemma WindowNested(refs: seq<Page>, i: nat, k: nat, m: nat, j: nat)
    requires i <= k <= m <= j <= |refs|
    ensures Window(refs, k, m) <= Window(refs, i, j)
    ensures |Window(refs, k, m)| <= |Window(refs, i, j)|
  {
    forall x | x in refs[k..m] ensures x in refs[i..j] {
      var a :| 0 <= a < |refs[k..m]| && refs[k..m][a] == x;
      assert refs[i..j][k - i + a] == x;
    }
    SubsetCard(Window(refs, k, m), Window(refs, i, j));
  }

  // ---------------------------------------------------------------- conservative policies

  /** A loaded page survives until F other pages have been referenced. */
  ghost predicate KeepsLoaded(F: nat, refs: seq<Page>, cs: seq<set<Page>>)
    requires |cs| == |refs| + 1
  {
    forall k: nat, m: nat :: k < m <= |refs| && Fault(refs, cs, k) && |Window(refs, k, m)| <= F
      ==> refs[k] in cs[m]
  }

  /** In every window of at most F distinct pages there is at most one fault per page. */
  ghost predicate Conservative(F: nat, refs: seq<Page>, cs: seq<set<Page>>)
    requires |cs| == |refs| + 1
  {
    forall i: nat, j: nat :: i <= j <= |refs| && |Window(refs, i, j)| <= F
      ==> Faults(refs, cs, i, j) <= |Window(refs, i, j)|
  }

  /** The pages that faulted in a window. */
  ghost function Loaded(refs: seq<Page>, cs: seq<set<Page>>, i: nat, j: nat): set<Page>
    requires i <= j <= |refs| && |cs| == |refs| + 1
    decreases j
  {
    if i == j then {}
    else if Fault(refs, cs, j - 1) then Loaded(refs, cs, i, j - 1) + {refs[j - 1]}
    else Loaded(refs, cs, i, j - 1)
  }

  lemma {:induction false} LoadedWitness(refs: seq<Page>, cs: seq<set<Page>>, i: nat, j: nat, p: Page) returns (k: nat)
    requires i <= j <= |refs| && |cs| == |refs| + 1
    requires p in Loaded(refs, cs, i, j)
    ensures i <= k < j && refs[k] == p && Fault(refs, cs, k)
    decreases j
  {
    if Fault(refs, cs, j - 1) && p == refs[j - 1] {
      k := j - 1;
    } else {
      k := LoadedWitness(refs, cs, i, j - 1, p);
    }
  }

  lemma NoSecondFault(F: nat, refs: seq<Page>, cs: seq<set<Page>>, i: nat, j: nat)
    requires i <= j < |refs| && |cs| == |refs| + 1
    requires KeepsLoaded(F, refs, cs)
    requires |Window(refs, i, j)| <= F
    requires Fault(refs, cs, j)
    ensures refs[j] !in Loaded(refs, cs, i, j)
  {
    if refs[j] in Loaded(refs, cs, i, j) {
      var k := LoadedWitness(refs, cs, i, j, refs[j]);
      WindowNested(refs, i, k, j, j);
    }
  }

  /** No page faults twice in such a window, so faults and faulted pages agree in number. */
  lemma {:induction false} FaultOncePerPage(F: nat, refs: seq<Page>, cs: seq<set<Page>>, i: nat, j: nat)
    requires i <= j <= |refs| && |cs| == |refs| + 1
    requires KeepsLoaded(F, refs, cs)
    requires |Window(refs, i, j)| <= F
    ensures Faults(refs, cs, i, j) == |Loaded(refs, cs, i, j)|
    ensures Loaded(refs, cs, i, j) <= Window(refs, i, j)
    decreases j
  {
    hide Window, KeepsLoaded, Fault;
    if i < j {
      WindowGrows(refs, i, j - 1);
      FaultOncePerPage(F, refs, cs, i, j - 1);
      if Fault(refs, cs, j - 1) {
        NoSecondFault(F, refs, cs, i, j - 1);
      }
    }
  }

  lemma KeepsLoadedIsConservative(F: nat, refs: seq<Page>, cs: seq<set<Page>>)
    requires |cs| == |refs| + 1
    requires KeepsLoaded(F, refs, cs)
    ensures Conservative(F, refs, cs)
  {
    forall i: nat, j: nat | i <= j <= |refs| && |Window(refs, i, j)| <= F
      ensures Faults(refs, cs, i, j) <= |Window(refs, i, j)|
    {
      FaultOncePerPage(F, refs, cs, i, j);
      SubsetCard(Loaded(refs, cs, i, j), Window(refs, i, j));
    }
  }

  // ---------------------------------------------------------------- competitiveness

  /** Whatever is referenced in a window was cached when it began or has been loaded in it. */
  lemma {:induction false} HeldOrLoaded(F: nat, refs: seq<Page>, ds: seq<set<Page>>, i: nat, j: nat)
    requires Schedule(F, refs, ds) && i <= j <= |refs|
    ensures Window(refs, i, j) + ds[j] <= ds[i] + Loaded(refs, ds, i, j)
    ensures |Loaded(refs, ds, i, j)| <= Faults(refs, ds, i, j)
    decreases j
  {
    hide Window;
    if i == j {
      WindowEmpty(refs, i);
    } else {
      HeldOrLoaded(F, refs, ds, i, j - 1);
      WindowGrows(refs, i, j - 1);
      assert ServedAt(F, refs, ds, j - 1);
    }
  }

  /** The longest window from s with at most G distinct pages, searched from m on. */
  lemma {:induction false} PhaseEnd(G: nat, refs: seq<Page>, s: nat, m: nat) returns (e: nat)
    requires s < m <= |refs| && |Window(refs, s, m)| <= G
    ensures m <= e <= |refs| && |Window(refs, s, e)| <= G
    ensures e < |refs| ==> |Window(refs, s, e + 1)| == G + 1
    decreases |refs| - m
  {
    hide Window;
    e := m;
    if m < |refs| {
      WindowGrows(refs, s, m);
      if |Window(refs, s, m + 1)| <= G {
        e := PhaseEnd(G, refs, s, m + 1);
      }
    }
  }

  lemma WindowHead(refs: seq<Page>, s: nat, e: nat)
    requires s < e <= |refs|
    ensures Window(refs, s, e) == {refs[s]} + Window(refs, s + 1, e)
  {
    assert refs[s..e] == [refs[s]] + refs[s + 1..e];
  }

  lemma UnionCard(a: set<Page>, b: set<Page>)
    ensures |a + b| <= |a| + |b|
  {
    assert a + b == a + (b - a);
    SubsetCard(b - a, b);
  }

  /** Past the end of a phase of G pages a schedule with F frames has faulted on all it could not hold. */
  lemma PhaseCost(F: nat, G: nat, refs: seq<Page>, ds: seq<set<Page>>, s: nat, e: nat)
    requires Schedule(F, refs, ds)
    requires s < e < |refs| && |Window(refs, s, e + 1)| == G + 1
    ensures Faults(refs, ds, s + 1, e + 1) >= G + 1 - F
  {
    hide Window, Faults, Loaded;
    HeldOrLoaded(F, refs, ds, s + 1, e + 1);
    WindowHead(refs, s, e + 1);
    assert ServedAt(F, refs, ds, s);
    var loaded := Loaded(refs, ds, s + 1, e + 1);
    SubsetCard(Window(refs, s, e + 1), ds[s + 1] + loaded);
    UnionCard(ds[s + 1], loaded);
  }

  lemma {:induction false} VersusFrom(F: nat, G: nat, refs: seq<Page>, cs: seq<set<Page>>, ds: seq<set<Page>>, s: nat)
    requires 1 <= F <= G && s < |refs| && |cs| == |refs| + 1
    requires Conservative(G, refs, cs) && Schedule(F, refs, ds)
    ensures (G - F + 1) * Faults(refs, cs, s, |refs|) <= G * (G - F + 1 + Faults(refs, ds, s + 1, |refs|))
    decreases |refs| - s
  {
    hide Window, Faults;
    var n, c := |refs|, G - F + 1;
    WindowEmpty(refs, s);
    WindowGrows(refs, s, s);
    var e := PhaseEnd(G, refs, s, s + 1);
    var phase := Faults(refs, cs, s, e);
    var paid := Faults(refs, ds, s + 1, n);
    assert phase <= G;
    if e == n {
      PhaseSum(G, c, phase, 0, 0, c + paid);
    } else {
      PhaseCost(F, G, refs, ds, s, e);
      VersusFrom(F, G, refs, cs, ds, e);
      FaultsSplit(refs, cs, s, e, n);
      FaultsSplit(refs, ds, s + 1, e + 1, n);
      PhaseSum(G, c, phase, Faults(refs, cs, e, n), c + Faults(refs, ds, e + 1, n), c + paid);
    }
  }

  lemma PhaseSum(G: nat, c: nat, phase: nat, rest: nat, restPaid: nat, paid: nat)
    requires phase <= G && c * rest <= G * restPaid && restPaid + c <= paid
    ensures c * (phase + rest) <= G * paid
  {
    assert c * (phase + rest) == c * phase + c * rest;
    assert G * (restPaid + c) == G * restPaid + c * G;
    MulMono(c, phase, G);
    MulMono(G, restPaid + c, paid);
  }

  lemma MulMono(a: nat, x: nat, y: nat)
    requires x <= y
    ensures a * x <= a * y
  {}

  /** Sleator and Tarjan: a conservative policy with G frames against any schedule with F of them. */
  lemma ConservativeVersus(F: nat, G: nat, refs: seq<Page>, cs: seq<set<Page>>, ds: seq<set<Page>>)
    requires 1 <= F <= G && |cs| == |refs| + 1
    requires Conservative(G, refs, cs) && Schedule(F, refs, ds)
    ensures (G - F + 1) * Faults(refs, cs, 0, |refs|) <= G * (Faults(refs, ds, 0, |refs|) + G - F)
  {
    if |refs| > 0 {
      VersusFrom(F, G, refs, cs, ds, 0);
      FaultsSplit(refs, ds, 0, 1, |refs|);
      assert Fault(refs, ds, 0);
      assert Faults(refs, ds, 0, 1) == 1;
    }
  }

  /** With as many frames as the schedule it faults at most F times as often. */
  lemma Competitive(F: nat, refs: seq<Page>, cs: seq<set<Page>>, ds: seq<set<Page>>)
    requires 1 <= F && |cs| == |refs| + 1
    requires Conservative(F, refs, cs) && Schedule(F, refs, ds)
    ensures Faults(refs, cs, 0, |refs|) <= F * Faults(refs, ds, 0, |refs|)
  {
    ConservativeVersus(F, F, refs, cs, ds);
  }
}

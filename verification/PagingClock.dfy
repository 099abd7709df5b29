/** Second chance: the frames in clock order, the frame under the hand first. */
module ClockPolicy {
  import opened Sets
  import opened DemandPaging

  datatype Slot = Slot(page: Page, bit: bool)

  function Pages(clock: seq<Slot>): (ps: seq<Page>)
    ensures |ps| == |clock|
  {
    if clock == [] then [] else [clock[0].page] + Pages(clock[1..])
  }

  function SetBits(clock: seq<Slot>): nat {
    if clock == [] then 0 else (if clock[0].bit then 1 else 0) + SetBits(clock[1..])
  }

  /** Set the reference bit of a cached page. */
  function Mark(clock: seq<Slot>, p: Page): seq<Slot> {
    if clock == [] then []
    else if clock[0].page == p then [Slot(p, true)] + clock[1..]
    else [clock[0]] + Mark(clock[1..], p)
  }

  lemma {:induction false} SetBitsAppend(a: seq<Slot>, b: seq<Slot>)
    ensures SetBits(a + b) == SetBits(a) + SetBits(b)
  {
    if a == [] {
      assert a + b == b;
    } else {
      SetBitsAppend(a[1..], b);
      assert (a + b)[1..] == a[1..] + b;
    }
  }

  /** The hand clears a set bit and moves on. */
  function Advance(clock: seq<Slot>): seq<Slot>
    requires clock != []
  {
    clock[1..] + [Slot(clock[0].page, false)]
  }

  lemma AdvanceClears(clock: seq<Slot>)
    requires clock != [] && clock[0].bit
    ensures SetBits(Advance(clock)) == SetBits(clock) - 1
  {
    SetBitsAppend(clock[1..], [Slot(clock[0].page, false)]);
  }

  /** Search for a frame with a clear bit, clearing bits on the way, and load p there. */
  function Replace(clock: seq<Slot>, p: Page): seq<Slot>
    requires clock != []
    decreases SetBits(clock)
  {
    if clock[0].bit then
      AdvanceClears(clock);
      Replace(Advance(clock), p)
    else
      clock[1..] + [Slot(p, true)]
  }

  /** Hand movements of that search. */
  function HandSteps(clock: seq<Slot>): nat
    requires clock != []
    decreases SetBits(clock)
  {
    if clock[0].bit then
      AdvanceClears(clock);
      1 + HandSteps(Advance(clock))
    else
      1
  }

  function Step(F: nat, clock: seq<Slot>, p: Page): seq<Slot>
    requires 1 <= F
  {
    if p in Pages(clock) then Mark(clock, p)
    else if |clock| < F then clock + [Slot(p, true)]
    else Replace(clock, p)
  }

  function After(F: nat, refs: seq<Page>, k: nat): seq<Slot>
    requires 1 <= F && k <= |refs|
  {
    if k == 0 then [] else Step(F, After(F, refs, k - 1), refs[k - 1])
  }

  // ---------------------------------------------------------------- contents

  lemma {:induction false} PageAt(clock: seq<Slot>, i: nat)
    requires i < |clock|
    ensures Pages(clock)[i] == clock[i].page
  {
    if i > 0 {
      PageAt(clock[1..], i - 1);
    }
  }

  lemma PagesAppend(a: seq<Slot>, b: seq<Slot>)
    ensures Pages(a + b) == Pages(a) + Pages(b)
  {
    hide Pages;
    forall i | 0 <= i < |a + b| ensures Pages(a + b)[i] == (Pages(a) + Pages(b))[i] {
      PageAt(a + b, i);
      if i < |a| {
        PageAt(a, i);
      } else {
        PageAt(b, i - |a|);
      }
    }
  }

  lemma {:induction false} MarkPages(clock: seq<Slot>, p: Page)
    ensures Pages(Mark(clock, p)) == Pages(clock)
    ensures SetBits(clock) <= SetBits(Mark(clock, p)) <= SetBits(clock) + 1
  {
    if clock != [] && clock[0].page != p {
      MarkPages(clock[1..], p);
    }
  }

  lemma {:induction false} MarkAt(clock: seq<Slot>, p: Page, i: nat)
    requires i < |clock|
    ensures |Mark(clock, p)| == |clock|
    ensures Mark(clock, p)[i].page == clock[i].page
    ensures Mark(clock, p)[i].bit ==> clock[i].bit || clock[i].page == p
    ensures clock[i].bit ==> Mark(clock, p)[i].bit
  {
    if clock[0].page != p {
      if i > 0 {
        MarkAt(clock[1..], p, i - 1);
      } else if |clock| > 1 {
        MarkAt(clock[1..], p, 0);
      }
    }
  }

  /** The frame under the hand goes to the back, holding x. */
  lemma RotatePages(clock: seq<Slot>, x: Page, bit: bool)
    requires clock != [] && Distinct(Pages(clock)) && x !in Pages(clock[1..])
    ensures Distinct(Pages(clock[1..] + [Slot(x, bit)]))
    ensures Elems(Pages(clock[1..] + [Slot(x, bit)])) == Elems(Pages(clock)) - {clock[0].page} + {x}
  {
    var rest := Pages(clock[1..]);
    PagesAppend(clock[1..], [Slot(x, bit)]);
    assert Pages([Slot(x, bit)]) == [x];
    assert Pages(clock)[1..] == rest;
    DistinctRotate(Pages(clock), x);
    ElemsAppend(rest, [x]);
    ElemsAppend([clock[0].page], rest);
  }

  lemma AdvancePages(clock: seq<Slot>)
    requires clock != [] && Distinct(Pages(clock))
    ensures Distinct(Pages(Advance(clock)))
    ensures Elems(Pages(Advance(clock))) == Elems(Pages(clock))
  {
    var pages := Pages(clock);
    assert pages[1..] == Pages(clock[1..]);
    assert pages[0] !in pages[1..];
    RotatePages(clock, clock[0].page, false);
  }

  lemma {:induction false} ReplacePages(clock: seq<Slot>, p: Page)
    requires clock != [] && Distinct(Pages(clock)) && p !in Pages(clock)
    ensures Distinct(Pages(Replace(clock, p))) && |Replace(clock, p)| == |clock|
    ensures p in Elems(Pages(Replace(clock, p)))
    ensures Elems(Pages(Replace(clock, p))) <= Elems(Pages(clock)) + {p}
    decreases SetBits(clock)
  {
    if clock[0].bit {
      AdvanceClears(clock);
      AdvancePages(clock);
      assert p !in Elems(Pages(clock));
      ReplacePages(Advance(clock), p);
    } else {
      RotatePages(clock, p, true);
    }
  }

  lemma StepPages(F: nat, clock: seq<Slot>, p: Page)
    requires 1 <= F && Distinct(Pages(clock)) && |clock| <= F
    ensures Distinct(Pages(Step(F, clock, p))) && |Step(F, clock, p)| <= F
    ensures p in Elems(Pages(Step(F, clock, p)))
    ensures Elems(Pages(Step(F, clock, p))) <= Elems(Pages(clock)) + {p}
  {
    if p in Pages(clock) {
      MarkPages(clock, p);
    } else if |clock| < F {
      PagesAppend(clock, [Slot(p, true)]);
      assert Pages([Slot(p, true)]) == [p];
      ElemsAppend(Pages(clock), [p]);
    } else {
      ReplacePages(clock, p);
    }
  }

  lemma {:induction false} ClockDistinct(F: nat, refs: seq<Page>, k: nat)
    requires 1 <= F && k <= |refs|
    ensures Distinct(Pages(After(F, refs, k))) && |After(F, refs, k)| <= F
  {
    if k > 0 {
      ClockDistinct(F, refs, k - 1);
      StepPages(F, After(F, refs, k - 1), refs[k - 1]);
    }
  }

  lemma StepServes(F: nat, refs: seq<Page>, k: nat)
    requires 1 <= F && k < |refs|
    ensures Serves(F, Elems(Pages(After(F, refs, k))), refs[k], Elems(Pages(After(F, refs, k + 1))))
  {
    ClockDistinct(F, refs, k);
    StepPages(F, After(F, refs, k), refs[k]);
    ElemsCard(Pages(After(F, refs, k + 1)));
  }

  // ---------------------------------------------------------------- two revolutions

  /** Before the hand has passed slot i: the slots behind it have been cleared since its load. */
  ghost predicate FirstLap(clock: seq<Slot>, i: nat, recent: set<Page>)
    requires i < |clock|
  {
    clock[i].bit && forall j :: i < j < |clock| && clock[j].bit ==> clock[j].page in recent
  }

  /** After that: every set bit is recent, and so is every page behind slot i. */
  ghost predicate SecondLap(clock: seq<Slot>, i: nat, recent: set<Page>)
    requires i < |clock|
  {
    && (forall j :: 0 <= j < |clock| && clock[j].bit ==> clock[j].page in recent)
    && (forall j :: i < j < |clock| ==> clock[j].page in recent)
  }

  ghost predicate Guarded(clock: seq<Slot>, i: nat, recent: set<Page>) {
    && i < |clock| && clock[i].page in recent
    && (FirstLap(clock, i, recent) || SecondLap(clock, i, recent))
  }

  lemma AdvanceGuard(clock: seq<Slot>, i: nat, recent: set<Page>) returns (i': nat)
    requires Guarded(clock, i, recent) && clock[0].bit
    ensures Guarded(Advance(clock), i', recent) && Advance(clock)[i'].page == clock[i].page
  {
    var next := Advance(clock);
    i' := if i == 0 then |clock| - 1 else i - 1;
    if FirstLap(clock, i, recent) && i > 0 {
      assert FirstLap(next, i', recent);
    } else {
      assert SecondLap(next, i', recent);
    }
  }

  lemma {:induction false} PagesWithin(clock: seq<Slot>, recent: set<Page>)
    requires forall j :: 0 <= j < |clock| ==> clock[j].page in recent
    ensures Elems(Pages(clock)) <= recent
  {
    if clock != [] {
      PagesWithin(clock[1..], recent);
      ElemsAppend([clock[0].page], Pages(clock[1..]));
    }
  }

  /** A full clock of recent pages leaves no room for a further one. */
  lemma ClockFillsWindow(clock: seq<Slot>, p: Page, recent: set<Page>)
    requires Distinct(Pages(clock)) && p !in Pages(clock)
    requires forall j :: 0 <= j < |clock| ==> clock[j].page in recent
    ensures |recent + {p}| > |clock|
  {
    PagesWithin(clock, recent);
    NoRoom(Pages(clock), p, recent);
  }

  lemma {:induction false} ReplaceGuard(clock: seq<Slot>, p: Page, i: nat, recent: set<Page>) returns (i': nat)
    requires Guarded(clock, i, recent)
    requires Distinct(Pages(clock)) && p !in Pages(clock) && |recent + {p}| <= |clock|
    ensures Guarded(Replace(clock, p), i', recent + {p}) && Replace(clock, p)[i'].page == clock[i].page
    decreases SetBits(clock)
  {
    if clock[0].bit {
      AdvanceClears(clock);
      AdvancePages(clock);
      assert p !in Elems(Pages(clock));
      var a := AdvanceGuard(clock, i, recent);
      i' := ReplaceGuard(Advance(clock), p, a, recent);
    } else {
      if i == 0 {
        ClockFillsWindow(clock, p, recent);
      }
      i' := i - 1;
      LoadGuard(clock, p, i, recent);
    }
  }

  lemma LoadGuard(clock: seq<Slot>, p: Page, i: nat, recent: set<Page>)
    requires Guarded(clock, i, recent) && i > 0
    ensures Guarded(clock[1..] + [Slot(p, true)], i - 1, recent + {p})
  {
    var next := clock[1..] + [Slot(p, true)];
    if FirstLap(clock, i, recent) {
      assert FirstLap(next, i - 1, recent + {p});
    } else {
      assert SecondLap(next, i - 1, recent + {p});
    }
  }

  lemma MarkGuard(clock: seq<Slot>, p: Page, i: nat, recent: set<Page>)
    requires Guarded(clock, i, recent)
    ensures Guarded(Mark(clock, p), i, recent + {p}) && Mark(clock, p)[i].page == clock[i].page
  {
    MarkAt(clock, p, i);
    forall j | 0 <= j < |clock|
      ensures Mark(clock, p)[j].page == clock[j].page
      ensures Mark(clock, p)[j].bit ==> clock[j].bit || clock[j].page == p
    {
      MarkAt(clock, p, j);
    }
    if FirstLap(clock, i, recent) {
      assert FirstLap(Mark(clock, p), i, recent + {p});
    } else {
      assert SecondLap(Mark(clock, p), i, recent + {p});
    }
  }

  lemma FillGuard(clock: seq<Slot>, p: Page, i: nat, recent: set<Page>)
    requires Guarded(clock, i, recent)
    ensures Guarded(clock + [Slot(p, true)], i, recent + {p})
  {
    var next := clock + [Slot(p, true)];
    if FirstLap(clock, i, recent) {
      assert FirstLap(next, i, recent + {p});
    } else {
      assert SecondLap(next, i, recent + {p});
    }
  }

  lemma {:induction false} ReplaceLoads(clock: seq<Slot>, p: Page)
    requires clock != []
    ensures Replace(clock, p) != [] && Replace(clock, p)[|Replace(clock, p)| - 1] == Slot(p, true)
    decreases SetBits(clock)
  {
    if clock[0].bit {
      AdvanceClears(clock);
      ReplaceLoads(Advance(clock), p);
    }
  }

  lemma StepGuard(F: nat, clock: seq<Slot>, p: Page, i: nat, recent: set<Page>) returns (i': nat)
    requires 1 <= F && Guarded(clock, i, recent)
    requires Distinct(Pages(clock)) && |clock| <= F && |recent + {p}| <= F
    ensures Guarded(Step(F, clock, p), i', recent + {p}) && Step(F, clock, p)[i'].page == clock[i].page
  {
    if p in Pages(clock) {
      i' := i;
      MarkGuard(clock, p, i, recent);
    } else if |clock| < F {
      i' := i;
      FillGuard(clock, p, i, recent);
    } else {
      i' := ReplaceGuard(clock, p, i, recent);
    }
  }

  lemma FreshGuard(F: nat, clock: seq<Slot>, p: Page) returns (i: nat)
    requires 1 <= F && p !in Pages(clock)
    ensures Guarded(Step(F, clock, p), i, {p}) && Step(F, clock, p)[i].page == p
  {
    if |clock| >= F {
      ReplaceLoads(clock, p);
    }
    i := |Step(F, clock, p)| - 1;
    assert FirstLap(Step(F, clock, p), i, {p});
  }

  /** The two-revolution argument: a loaded page is guarded until F others have been referenced. */
  lemma {:induction false} LoadedGuard(F: nat, refs: seq<Page>, k: nat, m: nat) returns (i: nat)
    requires 1 <= F && k < m <= |refs|
    requires refs[k] !in Pages(After(F, refs, k)) && |Window(refs, k, m)| <= F
    ensures Guarded(After(F, refs, m), i, Window(refs, k, m))
    ensures After(F, refs, m)[i].page == refs[k]
    decreases m
  {
    hide Step, Window, Guarded, Distinct, Pages;
    WindowGrows(refs, k, m - 1);
    WindowEmpty(refs, k);
    var clock, p, recent := After(F, refs, m - 1), refs[m - 1], Window(refs, k, m - 1);
    if k == m - 1 {
      i := FreshGuard(F, clock, p);
    } else {
      ClockDistinct(F, refs, m - 1);
      var before := LoadedGuard(F, refs, k, m - 1);
      i := StepGuard(F, clock, p, before, recent);
    }
  }

  lemma Stays(F: nat, refs: seq<Page>, k: nat, m: nat)
    requires 1 <= F && k < m <= |refs|
    requires refs[k] !in Pages(After(F, refs, k)) && |Window(refs, k, m)| <= F
    ensures refs[k] in Pages(After(F, refs, m))
  {
    var i := LoadedGuard(F, refs, k, m);
    PageAt(After(F, refs, m), i);
  }

  // ---------------------------------------------------------------- cost of the hand

  lemma {:induction false} SetBitsBound(clock: seq<Slot>)
    ensures SetBits(clock) <= |clock|
  {
    if clock != [] {
      SetBitsBound(clock[1..]);
    }
  }

  /** A search clears bits for all but its last movement, and loads one page with its bit set. */
  lemma {:induction false} SearchCost(clock: seq<Slot>, p: Page)
    requires clock != []
    ensures HandSteps(clock) + SetBits(Replace(clock, p)) == SetBits(clock) + 2
    ensures HandSteps(clock) <= |clock| + 1
    decreases SetBits(clock)
  {
    if clock[0].bit {
      AdvanceClears(clock);
      SearchCost(Advance(clock), p);
    } else {
      SetBitsAppend(clock[1..], [Slot(p, true)]);
      assert SetBits([Slot(p, true)]) == 1;
    }
    HandStepsBound(clock);
    SetBitsBound(clock);
  }

  lemma {:induction false} HandStepsBound(clock: seq<Slot>)
    requires clock != []
    ensures HandSteps(clock) <= SetBits(clock) + 1
    decreases SetBits(clock)
  {
    if clock[0].bit {
      AdvanceClears(clock);
      HandStepsBound(Advance(clock));
    }
  }

  // ---------------------------------------------------------------- the second chance

  /** The same pages with their bits clear. */
  function Cleared(clock: seq<Slot>): (r: seq<Slot>)
    ensures |r| == |clock| && forall i :: 0 <= i < |r| ==> r[i] == Slot(clock[i].page, false)
  {
    if clock == [] then [] else Cleared(clock[..|clock| - 1]) + [Slot(clock[|clock| - 1].page, false)]
  }

  /** Slot j is the first, in the order of the hand, whose bit is clear. */
  predicate FirstClear(clock: seq<Slot>, j: nat) {
    j < |clock| && !clock[j].bit && forall i :: 0 <= i < j ==> clock[i].bit
  }

  /** The search replaces the first page whose bit is clear; only the bits it passes are cleared. */
  lemma SearchResult(clock: seq<Slot>, p: Page, j: nat)
    requires FirstClear(clock, j)
    ensures Replace(clock, p) == clock[j + 1..] + Cleared(clock[..j]) + [Slot(p, true)]
  {
    hide Replace, Turned;
    SearchPassing(clock, p, j);
    TurnedOn(clock, j);
    ReplaceHere(Turned(clock, j), p);
  }

  lemma ReplaceHere(clock: seq<Slot>, p: Page)
    requires clock != [] && !clock[0].bit
    ensures Replace(clock, p) == clock[1..] + [Slot(p, true)]
  {}

  lemma ReplaceOn(clock: seq<Slot>, p: Page)
    requires clock != [] && clock[0].bit
    ensures Replace(clock, p) == Replace(Advance(clock), p)
  {}

  /** The clock when the hand has passed the first j slots. */
  function Turned(clock: seq<Slot>, j: nat): seq<Slot>
    requires j <= |clock|
  {
    clock[j..] + Cleared(clock[..j])
  }

  lemma TurnedOn(clock: seq<Slot>, j: nat)
    requires j < |clock|
    ensures Turned(clock, j) != [] && Turned(clock, j)[0] == clock[j]
    ensures Turned(clock, j)[1..] == clock[j + 1..] + Cleared(clock[..j])
    ensures Advance(Turned(clock, j)) == Turned(clock, j + 1)
  {
    assert clock[..j + 1] == clock[..j] + [clock[j]];
    assert Cleared(clock[..j + 1]) == Cleared(clock[..j]) + [Slot(clock[j].page, false)];
    assert clock[j..] == [clock[j]] + clock[j + 1..];
  }

  /** Set bits let the hand pass. */
  lemma {:induction false} SearchPassing(clock: seq<Slot>, p: Page, j: nat)
    requires j <= |clock| && clock != [] && forall i :: 0 <= i < j ==> clock[i].bit
    ensures Turned(clock, j) != [] && Replace(clock, p) == Replace(Turned(clock, j), p)
    decreases j
  {
    hide Replace, Turned;
    if j == 0 {
      TurnedNone(clock);
    } else {
      SearchPassing(clock, p, j - 1);
      TurnedOn(clock, j - 1);
      ReplaceOn(Turned(clock, j - 1), p);
    }
  }

  lemma TurnedNone(clock: seq<Slot>)
    ensures Turned(clock, 0) == clock && Turned(clock, |clock|) == Cleared(clock)
  {
    assert clock[..|clock|] == clock;
  }

  /** With all bits set the hand comes round to where it was, and that page goes. */
  lemma FullRevolution(clock: seq<Slot>, p: Page)
    requires clock != [] && forall i :: 0 <= i < |clock| ==> clock[i].bit
    ensures Replace(clock, p) == Cleared(clock[1..]) + [Slot(p, true)]
  {
    hide Replace, Turned;
    SearchPassing(clock, p, |clock|);
    TurnedNone(clock);
    ReplaceHere(Cleared(clock), p);
    assert Cleared(clock)[1..] == Cleared(clock[1..]);
  }

  lemma {:induction false} FindClear(clock: seq<Slot>, n: nat) returns (j: nat)
    requires n < |clock| && !clock[n].bit
    ensures FirstClear(clock, j)
  {
    j := n;
    if i: nat :| i < n && !clock[i].bit {
      j := FindClear(clock, i);
    }
  }

  /** A page whose bit is set survives the search unless every bit is set. */
  lemma SecondChance(clock: seq<Slot>, p: Page, s: Slot, n: nat)
    requires s in clock && s.bit && n < |clock| && !clock[n].bit
    ensures s.page in Pages(Replace(clock, p))
  {
    hide Replace, Pages;
    var j := FindClear(clock, n);
    SearchResult(clock, p, j);
    var i :| 0 <= i < |clock| && clock[i] == s;
    PageAt(Replace(clock, p), if i < j then |clock| - j - 1 + i else i - j - 1);
  }

  lemma {:induction false} MarkSets(clock: seq<Slot>, p: Page)
    requires p in Pages(clock)
    ensures Slot(p, true) in Mark(clock, p)
  {
    if clock[0].page != p {
      MarkSets(clock[1..], p);
      assert Mark(clock, p)[1..] == Mark(clock[1..], p);
    }
  }

  /** Every reference, hit or load, leaves the bit of its page set. */
  lemma StepSets(F: nat, clock: seq<Slot>, p: Page)
    requires 1 <= F
    ensures Slot(p, true) in Step(F, clock, p)
  {
    if p in Pages(clock) {
      MarkSets(clock, p);
    } else if |clock| >= F {
      ReplaceLoads(clock, p);
    }
  }

  /** Without a search no bit is cleared. */
  lemma StepLeavesSet(F: nat, clock: seq<Slot>, p: Page, q: Page)
    requires 1 <= F && Slot(q, true) in clock && (p in Pages(clock) || |clock| < F)
    ensures Slot(q, true) in Step(F, clock, p)
  {
    hide Pages, Mark;
    if p in Pages(clock) {
      var i :| 0 <= i < |clock| && clock[i] == Slot(q, true);
      MarkAt(clock, p, i);
      assert Mark(clock, p)[i] == Slot(q, true);
    }
  }

  /** The bit of a referenced page stays set until the hand moves again. */
  lemma {:induction false} SetSinceUse(F: nat, refs: seq<Page>, k: nat, m: nat)
    requires 1 <= F && k < m <= |refs|
    requires forall t :: k < t < m ==> refs[t] in Pages(After(F, refs, t)) || |After(F, refs, t)| < F
    ensures Slot(refs[k], true) in After(F, refs, m)
    decreases m
  {
    hide Step, Pages;
    if k == m - 1 {
      StepSets(F, After(F, refs, k), refs[k]);
    } else {
      SetSinceUse(F, refs, k, m - 1);
      StepLeavesSet(F, After(F, refs, m - 1), refs[m - 1], refs[k]);
    }
  }

  /** So a page used since the hand last moved is evicted only when every cached page has its bit set. */
  lemma UsedPageSurvives(F: nat, refs: seq<Page>, k: nat, m: nat)
    requires 1 <= F && k < m < |refs|
    requires forall t :: k < t < m ==> refs[t] in Pages(After(F, refs, t)) || |After(F, refs, t)| < F
    requires refs[m] !in Pages(After(F, refs, m)) && |After(F, refs, m)| >= F
    ensures refs[k] in Pages(After(F, refs, m + 1))
         || forall i :: 0 <= i < |After(F, refs, m)| ==> After(F, refs, m)[i].bit
  {
    hide Pages, Replace, Mark;
    var clock := After(F, refs, m);
    SetSinceUse(F, refs, k, m);
    if n: nat :| n < |clock| && !clock[n].bit {
      SecondChance(clock, refs[m], Slot(refs[k], true), n);
    }
  }
}

/** The optimal policy: on a miss with full frames, replace the page whose next use is furthest away. */
module OptPolicy {
  import opened Sets
  import opened DemandPaging

  /** Distance to the next use of `p`, or |future| when it is never used again. */
  function NextUse(p: Page, future: seq<Page>): (d: nat) {
    if future == [] then 0
    else if future[0] == p then 0
    else 1 + NextUse(p, future[1..])
  }

  lemma {:induction false} UsedWithin(p: Page, future: seq<Page>, u: nat)
    requires u <= |future|
    ensures p in future[..u] <==> NextUse(p, future) < u
    ensures NextUse(p, future) <= |future|
  {
    if future != [] && future[0] != p {
      if u > 0 {
        UsedWithin(p, future[1..], u - 1);
        assert future[..u] == [future[0]] + future[1..][..u - 1];
      } else {
        UsedWithin(p, future[1..], 0);
      }
    }
  }

  /** The first of the first n frames whose next use is furthest away. */
  function Victim(frames: seq<Page>, future: seq<Page>, n: nat): (v: nat)
    requires 1 <= n <= |frames|
    ensures v < n
  {
    if n == 1 then 0
    else
      var v := Victim(frames, future, n - 1);
      if NextUse(frames[n - 1], future) > NextUse(frames[v], future) then n - 1 else v
  }

  lemma {:induction false} VictimFurthest(frames: seq<Page>, future: seq<Page>, n: nat, i: nat)
    requires i < n <= |frames|
    ensures var v := Victim(frames, future, n);
            && NextUse(frames[i], future) <= NextUse(frames[v], future)
            && (i < v ==> NextUse(frames[i], future) < NextUse(frames[v], future))
  {
    if n > 1 && i < n - 1 {
      VictimFurthest(frames, future, n - 1, i);
    }
  }

  function Step(F: nat, frames: seq<Page>, p: Page, future: seq<Page>): seq<Page>
    requires 1 <= F
  {
    if p in frames then frames
    else if |frames| < F then frames + [p]
    else frames[Victim(frames, future, |frames|) := p]
  }

  /** Frame contents after the first k references of `refs`. */
  function After(F: nat, refs: seq<Page>, k: nat): seq<Page>
    requires 1 <= F && k <= |refs|
  {
    if k == 0 then [] else Step(F, After(F, refs, k - 1), refs[k - 1], refs[k..])
  }

  /** Replacing one frame swaps one page for another. */
  lemma ReplaceElems(frames: seq<Page>, v: nat, p: Page)
    requires v < |frames| && Distinct(frames) && p !in frames
    ensures Distinct(frames[v := p])
    ensures Elems(frames[v := p]) == Elems(frames) - {frames[v]} + {p}
  {
    var out := frames[v := p];
    forall x | x in Elems(frames) - {frames[v]} ensures x in out {
      var i :| 0 <= i < |frames| && frames[i] == x;
      assert out[i] == x;
    }
    assert out[v] == p;
  }

  lemma {:induction false} FramesDistinct(F: nat, refs: seq<Page>, k: nat)
    requires 1 <= F && k <= |refs|
    ensures Distinct(After(F, refs, k)) && |After(F, refs, k)| <= F
  {
    if k > 0 {
      FramesDistinct(F, refs, k - 1);
      var frames, p := After(F, refs, k - 1), refs[k - 1];
      if p !in frames && |frames| >= F {
        ReplaceElems(frames, Victim(frames, refs[k..], |frames|), p);
      }
    }
  }

  /**
   The two shapes of a step on cache contents: either nothing leaves, or the
   cache was full and every page was due no later than the one that leaves.
   */
  lemma StepShape(F: nat, refs: seq<Page>, k: nat)
    requires 1 <= F && k < |refs|
    ensures var before, p, after := Elems(After(F, refs, k)), refs[k], Elems(After(F, refs, k + 1));
            || (after == before + {p} && |after| <= F)
            || (p !in before && |before| == F && exists q :: q in before && after == before - {q} + {p} && LastDue(before, q, refs[k + 1..]))
  {
    FramesDistinct(F, refs, k);
    FramesDistinct(F, refs, k + 1);
    var frames, p, future := After(F, refs, k), refs[k], refs[k + 1..];
    ElemsCard(frames);
    ElemsCard(After(F, refs, k + 1));
    if p !in frames && |frames| >= F {
      var v := Victim(frames, future, |frames|);
      ReplaceElems(frames, v, p);
      VictimLastDue(frames, future);
    } else if p !in frames {
      ElemsAppend(frames, [p]);
    }
  }

  /** Any stretch of the future that uses q uses every page of the cache. */
  ghost predicate LastDue(cache: set<Page>, q: Page, future: seq<Page>) {
    forall u :: 0 <= u <= |future| && q in Elems(future[..u]) ==> cache <= Elems(future[..u])
  }

  lemma VictimLastDue(frames: seq<Page>, future: seq<Page>)
    requires frames != []
    ensures LastDue(Elems(frames), frames[Victim(frames, future, |frames|)], future)
  {
    var v := Victim(frames, future, |frames|);
    forall u | 0 <= u <= |future| && frames[v] in Elems(future[..u])
      ensures Elems(frames) <= Elems(future[..u])
    {
      UsedWithin(frames[v], future, u);
      forall x | x in frames ensures x in future[..u] {
        var i :| 0 <= i < |frames| && frames[i] == x;
        VictimFurthest(frames, future, |frames|, i);
        UsedWithin(x, future, u);
      }
    }
  }

  lemma StepServes(F: nat, refs: seq<Page>, k: nat)
    requires 1 <= F && k < |refs|
    ensures Serves(F, Elems(After(F, refs, k)), refs[k], Elems(After(F, refs, k + 1)))
  {
    StepShape(F, refs, k);
    FramesDistinct(F, refs, k + 1);
    ElemsCard(After(F, refs, k + 1));
  }

  // ---------------------------------------------------------------- optimality

  /** In every stretch of the future the rival knows at most `lead` more pages than OPT. */
  ghost predicate Covers(opt: set<Page>, rival: set<Page>, future: seq<Page>, lead: int) {
    forall u :: 0 <= u <= |future|
      ==> |rival * Elems(future[..u])| <= |opt * Elems(future[..u])| + lead
  }

  lemma CardWithout(c: set<Page>, p: Page, w: set<Page>)
    ensures |c * (w + {p})| == |(c - {p}) * w| + if p in c then 1 else 0
    ensures |(c + {p}) * w| == |(c - {p}) * w| + if p in w then 1 else 0
  {
    if p in c { assert c * (w + {p}) == (c - {p}) * w + {p}; }
    else { assert c * (w + {p}) == (c - {p}) * w; }
    if p in w { assert (c + {p}) * w == (c - {p}) * w + {p}; }
    else { assert (c + {p}) * w == (c - {p}) * w; }
  }

  /** What the rival gains on a stretch `w` by serving p. */
  lemma RivalAfter(F: nat, rival: set<Page>, p: Page, rival': set<Page>, w: set<Page>)
    requires Serves(F, rival, p, rival')
    ensures |rival' * w| <= |(rival - {p}) * w| + if p in w then 1 else 0
    ensures |rival' * w| <= F - 1 + if p in w then 1 else 0
  {
    CardWithout(rival, p, w);
    CardWithout(rival', p, w);
    assert rival' + {p} == rival';
    SubsetCard(rival' * w, (rival + {p}) * w);
    SubsetCard((rival' - {p}) * w, rival' - {p});
  }

  /** When q leaves a full cache: stretches that miss q lose nothing, the others see all of it. */
  lemma OptAfterEviction(F: nat, opt: set<Page>, p: Page, q: Page, w: set<Page>)
    requires p !in opt && q in opt && |opt| == F
    requires q in w ==> opt <= w
    ensures q !in w ==> |(opt - {q} + {p}) * w| == |(opt - {p}) * w| + if p in w then 1 else 0
    ensures q in w ==> |(opt - {q} + {p}) * w| == F - 1 + if p in w then 1 else 0
  {
    var rest := opt - {q};
    CardWithout(rest, p, w);
    if q in w {
      assert (rest - {p}) * w == rest;
    } else {
      assert (rest - {p}) * w == (opt - {p}) * w;
    }
  }

  lemma CoversStep(F: nat, opt: set<Page>, opt': set<Page>, rival: set<Page>, rival': set<Page>,
                   p: Page, future: seq<Page>, lead: int)
    requires Serves(F, rival, p, rival')
    requires || opt' == opt + {p}
             || (p !in opt && |opt| == F && exists q :: q in opt && opt' == opt - {q} + {p} && LastDue(opt, q, future))
    requires Covers(opt, rival, [p] + future, lead)
    ensures Covers(opt', rival', future, lead + (if p !in rival then 1 else 0) - if p !in opt then 1 else 0)
  {
    var lead' := lead + (if p !in rival then 1 else 0) - if p !in opt then 1 else 0;
    forall u | 0 <= u <= |future|
      ensures |rival' * Elems(future[..u])| <= |opt' * Elems(future[..u])| + lead'
    {
      var w := Elems(future[..u]);
      StretchHead(p, future, u);
      StretchHead(p, future, 0);
      assert Elems(future[..0]) == {};
      CardWithout(rival, p, w);
      CardWithout(opt, p, w);
      CardWithout(rival, p, {});
      CardWithout(opt, p, {});
      RivalAfter(F, rival, p, rival', w);
      if opt' != opt + {p} {
        var q :| q in opt && opt' == opt - {q} + {p} && LastDue(opt, q, future);
        OptAfterEviction(F, opt, p, q, w);
      }
    }
  }

  lemma StretchHead(p: Page, future: seq<Page>, u: nat)
    requires u <= |future|
    ensures u + 1 <= |[p] + future| && Elems(([p] + future)[..u + 1]) == Elems(future[..u]) + {p}
  {
    assert ([p] + future)[..u + 1] == [p] + future[..u];
  }

  lemma NothingAhead(future: seq<Page>)
    ensures Covers({}, {}, future, 0)
  {
    forall u | 0 <= u <= |future| ensures {} * Elems(future[..u]) == {} {}
  }
}

/** First-in first-out: the frames as a queue, oldest page first. */
module FifoPolicy {
  import opened Sets
  import opened DemandPaging

  function Step(F: nat, queue: seq<Page>, p: Page): seq<Page>
    requires 1 <= F
  {
    if p in queue then queue
    else if |queue| < F then queue + [p]
    else queue[1..] + [p]
  }

  /** The queue after the first k references. */
  function After(F: nat, refs: seq<Page>, k: nat): seq<Page>
    requires 1 <= F && k <= |refs|
  {
    if k == 0 then [] else Step(F, After(F, refs, k - 1), refs[k - 1])
  }

  lemma {:induction false} QueueDistinct(F: nat, refs: seq<Page>, k: nat)
    requires 1 <= F && k <= |refs|
    ensures Distinct(After(F, refs, k)) && |After(F, refs, k)| <= F
  {
    if k > 0 {
      QueueDistinct(F, refs, k - 1);
    }
  }

  lemma StepServes(F: nat, refs: seq<Page>, k: nat)
    requires 1 <= F && k < |refs|
    ensures Serves(F, Elems(After(F, refs, k)), refs[k], Elems(After(F, refs, k + 1)))
  {
    QueueDistinct(F, refs, k + 1);
    ElemsCard(After(F, refs, k + 1));
  }

  /** A page with only recent ones behind it keeps that place while no more than F are recent. */
  lemma StepPosition(F: nat, queue: seq<Page>, p: Page, i: nat, recent: set<Page>) returns (i': nat)
    requires 1 <= F && Distinct(queue) && |queue| <= F && i < |queue|
    requires Elems(queue[i..]) <= recent && |recent + {p}| <= F
    ensures var next := Step(F, queue, p);
            i' < |next| && next[i'] == queue[i] && Elems(next[i'..]) <= recent + {p}
  {
    if p in queue || |queue| < F {
      i' := i;
      ElemsAppend(queue[i..], [p]);
      assert (queue + [p])[i..] == queue[i..] + [p];
    } else {
      if i == 0 {
        assert queue[0..] == queue;
        NoRoom(queue, p, recent);
      }
      i' := i - 1;
      ElemsAppend(queue[i..], [p]);
      assert (queue[1..] + [p])[i'..] == queue[i..] + [p];
    }
  }

  lemma LoadedLast(F: nat, queue: seq<Page>, p: Page) returns (i: nat)
    requires 1 <= F && p !in queue
    ensures var next := Step(F, queue, p); i < |next| && next[i] == p && Elems(next[i..]) == {p}
  {
    i := |Step(F, queue, p)| - 1;
    assert Step(F, queue, p)[i..] == [p];
  }

  /** Everything queued behind a loaded page was referenced after it. */
  lemma {:induction false} LoadedPosition(F: nat, refs: seq<Page>, k: nat, m: nat) returns (i: nat)
    requires 1 <= F && k < m <= |refs|
    requires refs[k] !in After(F, refs, k) && |Window(refs, k, m)| <= F
    ensures i < |After(F, refs, m)| && After(F, refs, m)[i] == refs[k]
    ensures Elems(After(F, refs, m)[i..]) <= Window(refs, k, m)
    decreases m
  {
    hide Step, Window, Elems, Distinct;
    WindowGrows(refs, k, m - 1);
    if k == m - 1 {
      i := LoadedLast(F, After(F, refs, k), refs[k]);
    } else {
      QueueDistinct(F, refs, m - 1);
      i := LoadedPosition(F, refs, k, m - 1);
      i := StepPosition(F, After(F, refs, m - 1), refs[m - 1], i, Window(refs, k, m - 1));
    }
  }

  lemma Stays(F: nat, refs: seq<Page>, k: nat, m: nat)
    requires 1 <= F && k < m <= |refs|
    requires refs[k] !in After(F, refs, k) && |Window(refs, k, m)| <= F
    ensures refs[k] in After(F, refs, m)
  {
    var i := LoadedPosition(F, refs, k, m);
  }
}

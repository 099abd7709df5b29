/** Least recently used: the frames as a stack, most recent page first. */
module LruPolicy {
  import opened Sets
  import opened DemandPaging

  function Remove(l: seq<Page>, p: Page): seq<Page> {
    if l == [] then []
    else if l[0] == p then l[1..]
    else [l[0]] + Remove(l[1..], p)
  }

  function Take(F: nat, l: seq<Page>): seq<Page> {
    if |l| <= F then l else l[..F]
  }

  function Step(F: nat, stack: seq<Page>, p: Page): seq<Page>
    requires 1 <= F
  {
    if p in stack then [p] + Remove(stack, p)
    else if |stack| < F then [p] + stack
    else [p] + stack[..F - 1]
  }

  function After(F: nat, refs: seq<Page>, k: nat): seq<Page>
    requires 1 <= F && k <= |refs|
  {
    if k == 0 then [] else Step(F, After(F, refs, k - 1), refs[k - 1])
  }

  /** All pages of the first k references by recency of their last use; no frame limit. */
  function Recency(refs: seq<Page>, k: nat): seq<Page>
    requires k <= |refs|
  {
    if k == 0 then [] else [refs[k - 1]] + Remove(Recency(refs, k - 1), refs[k - 1])
  }

  lemma {:induction false} RemoveDistinct(l: seq<Page>, p: Page)
    requires Distinct(l)
    ensures Distinct(Remove(l, p))
    ensures Elems(Remove(l, p)) == Elems(l) - {p}
    ensures |Remove(l, p)| == |l| - if p in l then 1 else 0
  {
    if l != [] {
      assert l == [l[0]] + l[1..];
      ElemsAppend([l[0]], l[1..]);
      if l[0] != p {
        RemoveDistinct(l[1..], p);
        ElemsAppend([l[0]], Remove(l[1..], p));
        assert l[0] !in Elems(Remove(l[1..], p));
      }
    }
  }

  lemma PushDistinct(l: seq<Page>, p: Page)
    requires Distinct(l)
    ensures Distinct([p] + Remove(l, p)) && Elems([p] + Remove(l, p)) == Elems(l) + {p}
  {
    hide Remove;
    RemoveDistinct(l, p);
    ElemsAppend([p], Remove(l, p));
    assert p !in Elems(Remove(l, p));
  }

  lemma {:induction false} RecencyDistinct(refs: seq<Page>, k: nat)
    requires k <= |refs|
    ensures Distinct(Recency(refs, k))
    ensures Elems(Recency(refs, k)) == Window(refs, 0, k)
  {
    hide Remove, Window;
    WindowEmpty(refs, 0);
    if k > 0 {
      RecencyDistinct(refs, k - 1);
      PushDistinct(Recency(refs, k - 1), refs[k - 1]);
      WindowGrows(refs, 0, k - 1);
    }
  }

  lemma {:induction false} TakeRemove(F: nat, l: seq<Page>, p: Page)
    ensures p in Take(F, l) ==> Remove(Take(F, l), p) == Take(F - 1, Remove(l, p))
    ensures p !in Take(F, l) && F > 0 ==> Take(F - 1, l) == Take(F - 1, Remove(l, p))
  {
    if l != [] && F > 0 {
      assert Take(F, l) == [l[0]] + Take(F - 1, l[1..]);
      if l[0] == p {
      } else {
        TakeRemove(F - 1, l[1..], p);
        if p in Take(F, l) {
          assert F > 1;
          assert Take(F - 1, Remove(l, p)) == [l[0]] + Take(F - 2, Remove(l[1..], p));
        } else if F > 1 {
          assert Take(F - 1, Remove(l, p)) == [l[0]] + Take(F - 2, Remove(l[1..], p));
          assert Take(F - 1, l) == [l[0]] + Take(F - 2, l[1..]);
        }
      }
    }
  }

  /** Cutting the unlimited stack to F pages commutes with a reference. */
  lemma TakeStep(F: nat, l: seq<Page>, p: Page)
    requires 1 <= F
    ensures Take(F, [p] + Remove(l, p)) == Step(F, Take(F, l), p)
  {
    assert Take(F, [p] + Remove(l, p)) == [p] + Take(F - 1, Remove(l, p));
    TakeRemove(F, l, p);
  }

  /** The stack property: F frames hold exactly the F most recently used pages. */
  lemma {:induction false} StackProperty(F: nat, refs: seq<Page>, k: nat)
    requires 1 <= F && k <= |refs|
    ensures After(F, refs, k) == Take(F, Recency(refs, k))
  {
    if k > 0 {
      StackProperty(F, refs, k - 1);
      TakeStep(F, Recency(refs, k - 1), refs[k - 1]);
    }
  }

  /** The number of occupied frames: every page ever used, up to F. */
  lemma StackSize(F: nat, refs: seq<Page>, k: nat)
    requires 1 <= F && k <= |refs|
    ensures var used := |Window(refs, 0, k)|; |After(F, refs, k)| == if used < F then used else F
    ensures Distinct(After(F, refs, k))
  {
    StackProperty(F, refs, k);
    RecencyDistinct(refs, k);
    ElemsCard(Recency(refs, k));
  }

  lemma StepElems(F: nat, stack: seq<Page>, p: Page)
    requires 1 <= F && Distinct(stack)
    ensures p in Elems(Step(F, stack, p)) && Elems(Step(F, stack, p)) <= Elems(stack) + {p}
  {
    if p in stack {
      RemoveDistinct(stack, p);
      ElemsAppend([p], Remove(stack, p));
    } else if |stack| < F {
      ElemsAppend([p], stack);
    } else {
      ElemsAppend([p], stack[..F - 1]);
    }
  }

  lemma StepServes(F: nat, refs: seq<Page>, k: nat)
    requires 1 <= F && k < |refs|
    ensures Serves(F, Elems(After(F, refs, k)), refs[k], Elems(After(F, refs, k + 1)))
  {
    StackSize(F, refs, k);
    StackSize(F, refs, k + 1);
    ElemsCard(After(F, refs, k + 1));
    StepElems(F, After(F, refs, k), refs[k]);
  }

  /** With more frames the cache only grows. */
  lemma Inclusion(F: nat, G: nat, refs: seq<Page>, k: nat)
    requires 1 <= F <= G && k <= |refs|
    ensures After(F, refs, k) <= After(G, refs, k)
  {
    StackProperty(F, refs, k);
    StackProperty(G, refs, k);
  }

  // ---------------------------------------------------------------- reuse distance

  lemma {:induction false} RemovePrefix(l: seq<Page>, p: Page, i: nat) returns (i': nat)
    requires Distinct(l) && i < |l| && l[i] != p
    ensures i' < |Remove(l, p)| && Remove(l, p)[i'] == l[i]
    ensures Elems(Remove(l, p)[..i']) == Elems(l[..i]) - {p}
  {
    var rest := l[1..];
    if i > 0 {
      assert l[..i] == [l[0]] + rest[..i - 1];
      ElemsAppend([l[0]], rest[..i - 1]);
    }
    if l[0] == p {
      i' := i - 1;
      assert p !in rest[..i'];
    } else if i == 0 {
      i' := 0;
    } else {
      var r := RemovePrefix(rest, p, i - 1);
      i' := r + 1;
      assert Remove(l, p)[..i'] == [l[0]] + Remove(rest, p)[..r];
      ElemsAppend([l[0]], Remove(rest, p)[..r]);
    }
  }

  /** Referencing p moves it above l[i]; nothing else changes sides. */
  lemma PushPrefix(l: seq<Page>, p: Page, i: nat) returns (d: nat)
    requires Distinct(l) && i < |l| && l[i] != p
    ensures var pushed := [p] + Remove(l, p);
            d < |pushed| && pushed[d] == l[i] && Elems(pushed[..d]) == Elems(l[..i]) + {p}
  {
    var r := RemovePrefix(l, p, i);
    d := r + 1;
    assert ([p] + Remove(l, p))[..d] == [p] + Remove(l, p)[..r];
    ElemsAppend([p], Remove(l, p)[..r]);
    assert Elems([p]) == {p};
  }

  lemma {:induction false} StackPrefix(refs: seq<Page>, k: nat, j: nat) returns (d: nat)
    requires j < k <= |refs| && refs[j] !in Window(refs, j + 1, k)
    ensures d < |Recency(refs, k)| && Recency(refs, k)[d] == refs[j]
    ensures Elems(Recency(refs, k)[..d]) == Window(refs, j + 1, k)
  {
    hide Remove, Window, Distinct;
    if j == k - 1 {
      WindowEmpty(refs, k);
      d := 0;
    } else {
      var p, before := refs[k - 1], Recency(refs, k - 1);
      WindowGrows(refs, j + 1, k - 1);
      RecencyDistinct(refs, k - 1);
      var d0 := StackPrefix(refs, k - 1, j);
      d := PushPrefix(before, p, d0);
    }
  }

  /** A page's depth in the unlimited stack counts the pages used since its last use at j. */
  lemma StackDepth(refs: seq<Page>, k: nat, j: nat) returns (d: nat)
    requires j < k <= |refs| && refs[j] !in Window(refs, j + 1, k)
    ensures d == |Window(refs, j + 1, k)|
    ensures d < |Recency(refs, k)| && Recency(refs, k)[d] == refs[j]
  {
    d := StackPrefix(refs, k, j);
    RecencyDistinct(refs, k);
    ElemsCard(Recency(refs, k)[..d]);
  }

  lemma {:induction false} LastUse(refs: seq<Page>, k: nat, j: nat) returns (last: nat)
    requires j < k <= |refs|
    ensures j <= last < k && refs[last] == refs[j] && refs[j] !in Window(refs, last + 1, k)
  {
    if refs[k - 1] == refs[j] {
      last := k - 1;
    } else {
      last := LastUse(refs, k - 1, j);
      WindowGrows(refs, last + 1, k - 1);
    }
  }

  /** Reference k hits exactly when its page was used with fewer than F other pages in between. */
  lemma HitIffReusedSoon(F: nat, refs: seq<Page>, k: nat)
    requires 1 <= F && k < |refs|
    ensures refs[k] in After(F, refs, k)
       <==> exists j: nat :: j < k && refs[j] == refs[k] && |Window(refs, j + 1, k)| < F
  {
    if refs[k] in After(F, refs, k) {
      var last := HitReusedSoon(F, refs, k, refs[k]);
    }
    if j: nat :| j < k && refs[j] == refs[k] && |Window(refs, j + 1, k)| < F {
      ReusedSoonHits(F, refs, k, j);
    }
  }

  lemma HitReusedSoon(F: nat, refs: seq<Page>, k: nat, p: Page) returns (last: nat)
    requires 1 <= F && k <= |refs| && p in After(F, refs, k)
    ensures last < k && refs[last] == p && |Window(refs, last + 1, k)| < F
  {
    var all := Recency(refs, k);
    StackProperty(F, refs, k);
    RecencyDistinct(refs, k);
    var i :| 0 <= i < |Take(F, all)| && Take(F, all)[i] == p;
    assert all[i] == p && p in Elems(all);
    var j :| 0 <= j < |refs[0..k]| && refs[0..k][j] == p;
    last := LastUse(refs, k, j);
    var d := StackDepth(refs, k, last);
    assert d == i;
  }

  lemma ReusedSoonHits(F: nat, refs: seq<Page>, k: nat, j: nat)
    requires 1 <= F && j < k <= |refs| && |Window(refs, j + 1, k)| < F
    ensures refs[j] in After(F, refs, k)
  {
    var last := LastUse(refs, k, j);
    WindowNested(refs, j + 1, last + 1, k, k);
    var d := StackDepth(refs, k, last);
    StackProperty(F, refs, k);
    assert Take(F, Recency(refs, k))[d] == refs[j];
  }

  lemma Stays(F: nat, refs: seq<Page>, k: nat, m: nat)
    requires 1 <= F && k < m <= |refs|
    requires |Window(refs, k, m)| <= F
    ensures refs[k] in After(F, refs, m)
  {
    var last := LastUse(refs, m, k);
    assert refs[k..m][0] == refs[k];
    WindowNested(refs, k, last + 1, m, m);
    SubsetCard(Window(refs, last + 1, m), Window(refs, k, m) - {refs[k]});
    ReusedSoonHits(F, refs, m, last);
  }
}

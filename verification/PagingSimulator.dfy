/** The four simulation loops over mutable frames, each proved against its policy. */
module PagingSimulator {
  import opened Sets
  import opened DemandPaging
  import opened PagingTheorems
  import opened PagingInput
  import OptPolicy
  import FifoPolicy
  import LruPolicy
  import ClockPolicy

  /** Index of the first frame holding `page`, or -1. */
  method FindInFrames(frames: array<Page>, page: Page) returns (i: int)
    ensures -1 <= i < frames.Length
    ensures i == -1 ==> page !in frames[..]
    ensures i >= 0 ==> frames[i] == page && page !in frames[..i]
  {
    i := 0;
    while i < frames.Length
      invariant 0 <= i <= frames.Length && page !in frames[..i]
    {
      if frames[i] == page { return; }
      i := i + 1;
    }
    i := -1;
  }

  /** The policy's faults before input position t. */
  ghost function FaultsAt(pol: Policy, F: nat, refs: seq<Page>, t: nat): nat
    requires 1 <= F && t <= |refs|
  {
    PositionBound(F, refs, t);
    FaultsUpTo(pol, F, Served(F, refs), Position(F, refs, t))
  }

  lemma NoFaultsAtStart(pol: Policy, F: nat, refs: seq<Page>)
    requires 1 <= F
    ensures FaultsAt(pol, F, refs, 0) == 0
  {
    Start(pol, F, refs);
  }

  lemma AllFaultsAtEnd(pol: Policy, F: nat, refs: seq<Page>)
    requires 1 <= F
    ensures FaultsAt(pol, F, refs, |refs|) == PageFaults(pol, F, Served(F, refs))
  {}

  // ---------------------------------------------------------------- FIFO

  /** Frames in queue order: before the frames are full `idx` is 0. */
  ghost predicate HoldsQueue(frames: seq<Page>, filled: nat, idx: nat, queue: seq<Page>) {
    && filled <= |frames| && idx < |frames|
    && (forall i :: filled <= i < |frames| ==> frames[i] == EMPTY)
    && if filled < |frames| then idx == 0 && queue == frames[..filled]
       else queue == frames[idx..] + frames[..idx]
  }

  lemma WrapAround(i: nat, F: nat)
    requires i < F
    ensures (i + 1) % F == if i + 1 < F then i + 1 else 0
  {}

  lemma QueueMember(frames: seq<Page>, filled: nat, idx: nat, queue: seq<Page>, p: Page)
    requires HoldsQueue(frames, filled, idx, queue)
    ensures |queue| == filled
    ensures p in frames <==> p in queue || (p == EMPTY && filled < |frames|)
  {
    if filled < |frames| {
      assert frames == frames[..filled] + frames[filled..];
      assert frames[filled] == EMPTY;
    } else {
      assert frames == frames[..idx] + frames[idx..];
    }
  }

  lemma QueueFill(F: nat, frames: seq<Page>, filled: nat, idx: nat, queue: seq<Page>, p: Page)
    requires 1 <= F == |frames| && HoldsQueue(frames, filled, idx, queue)
    requires p !in queue && filled < F
    ensures HoldsQueue(frames[filled := p], filled + 1, idx, FifoPolicy.Step(F, queue, p))
  {
    assert frames[filled := p][..filled + 1] == queue + [p];
  }

  lemma QueueReplace(F: nat, frames: seq<Page>, filled: nat, idx: nat, queue: seq<Page>, p: Page)
    requires 1 <= F == |frames| && HoldsQueue(frames, filled, idx, queue)
    requires p !in queue && filled == F
    ensures HoldsQueue(frames[idx := p], filled, (idx + 1) % F, FifoPolicy.Step(F, queue, p))
  {
    var next := frames[idx := p];
    WrapAround(idx, F);
    assert queue[1..] == frames[idx + 1..] + frames[..idx];
    if idx + 1 < F {
      assert next[idx + 1..] + next[..idx + 1] == queue[1..] + [p];
    } else {
      assert next[0..] + next[..0] == queue[1..] + [p];
    }
  }

  /** The three ways one iteration follows the policy. */
  lemma FifoIteration(F: nat, s: seq<Page>, k: nat, frames: seq<Page>, filled: nat, idx: nat)
    requires 1 <= F == |frames| && k < |s|
    requires HoldsQueue(frames, filled, idx, FifoPolicy.After(F, s, k))
    ensures var p, queue, next := s[k], FifoPolicy.After(F, s, k), FifoPolicy.After(F, s, k + 1);
            if p in queue then HoldsQueue(frames, filled, idx, next)
            else if filled < F then HoldsQueue(frames[filled := p], filled + 1, idx, next)
            else HoldsQueue(frames[idx := p], filled, (idx + 1) % F, next)
  {
    var p, queue := s[k], FifoPolicy.After(F, s, k);
    if p !in queue && filled < F {
      QueueFill(F, frames, filled, idx, queue, p);
    } else if p !in queue {
      QueueReplace(F, frames, filled, idx, queue, p);
    }
  }

  method SimulateFifo(F: nat, refs: seq<Page>) returns (faults: nat)
    requires 1 <= F
    ensures faults == PageFaults(Fifo, F, Served(F, refs))
    ensures NonNegative(refs) ==> faults == PageFaults(Fifo, F, refs)
  {
    hide FifoPolicy.After, FaultsUpTo, Strip;
    var frames := new Page[F](_ => EMPTY);
    faults := 0;
    var idx: nat, filled: nat := 0, 0;
    ghost var s := Served(F, refs);
    Start(Fifo, F, refs);
    PlainInput(F, refs);
    for t := 0 to |refs|
      invariant Position(F, refs, t) <= |s|
      invariant HoldsQueue(frames[..], filled, idx, FifoPolicy.After(F, s, Position(F, refs, t)))
      invariant faults == FaultsUpTo(Fifo, F, s, Position(F, refs, t))
    {
      var p := refs[t];
      ghost var k := Position(F, refs, t);
      NextReference(Fifo, F, refs, t);
      QueueMember(frames[..], filled, idx, FifoPolicy.After(F, s, k), p);
      if k < |s| {
        FaultStep(Fifo, F, s, k);
        FifoIteration(F, s, k, frames[..], filled, idx);
      }
      var i := FindInFrames(frames, p);
      if i != -1 { continue; }
      faults := faults + 1;
      if filled < F {
        frames[filled] := p;
        filled := filled + 1;
      } else {
        frames[idx] := p;
        idx := (idx + 1) % F;
      }
    }
  }

  // ---------------------------------------------------------------- OPT

  ghost predicate HoldsPages(frames: seq<Page>, filled: nat, held: seq<Page>) {
    && filled <= |frames| && held == frames[..filled]
    && forall i :: filled <= i < |frames| ==> frames[i] == EMPTY
  }

  lemma PagesMember(frames: seq<Page>, filled: nat, held: seq<Page>, p: Page)
    requires HoldsPages(frames, filled, held)
    ensures p in frames <==> p in held || (p == EMPTY && filled < |frames|)
  {
    assert frames == held + frames[filled..];
    if filled < |frames| {
      assert frames[filled] == EMPTY;
    }
  }

  /** The three ways one iteration follows the policy. */
  lemma OptIteration(F: nat, s: seq<Page>, at: nat, frames: seq<Page>, filled: nat)
    requires 1 <= F == |frames| && at < |s|
    requires HoldsPages(frames, filled, OptPolicy.After(F, s, at))
    ensures var p, held, next := s[at], OptPolicy.After(F, s, at), OptPolicy.After(F, s, at + 1);
            if p in held then HoldsPages(frames, filled, next)
            else if filled < F then HoldsPages(frames[filled := p], filled + 1, next)
            else HoldsPages(frames[OptPolicy.Victim(frames, s[at + 1..], F) := p], filled, next)
  {
    var p, held := s[at], OptPolicy.After(F, s, at);
    if p !in held && filled < F {
      assert frames[filled := p][..filled + 1] == held + [p];
    } else if p !in held {
      assert frames[..filled] == frames;
    }
  }

  /** Once the frames are full, what is left of the input is what is left to serve. */
  lemma RestOfInput(F: nat, refs: seq<Page>, t: nat)
    requires 1 <= F && t < |refs|
    requires Position(F, refs, t) < |Served(F, refs)|
    requires |Frames(Opt, F, Served(F, refs), Position(F, refs, t))| == F
    ensures Served(F, refs)[Position(F, refs, t) + 1..] == refs[t + 1..]
  {
    var s, k := Served(F, refs), Position(F, refs, t);
    PositionBound(F, refs, t);
    FillIffFewPages(Opt, F, s, k);
    assert s[0..k] == Strip(F, refs, t);
    StripPrefix(F, refs, t, |refs|);
    assert s == Strip(F, refs, t) + refs[t..];
  }

  /** Index of the next reference to `page` after reference k, or -1. */
  method NextReferenceTo(refs: seq<Page>, k: nat, page: Page) returns (next: int)
    requires k < |refs|
    ensures next == -1 <==> OptPolicy.NextUse(page, refs[k + 1..]) == |refs| - (k + 1)
    ensures next != -1 ==> next == k + 1 + OptPolicy.NextUse(page, refs[k + 1..])
  {
    next := -1;
    var j := k + 1;
    while j < |refs|
      invariant k + 1 <= j <= |refs|
      invariant OptPolicy.NextUse(page, refs[k + 1..]) == j - (k + 1) + OptPolicy.NextUse(page, refs[j..])
    {
      assert refs[j..][1..] == refs[j + 1..];
      OptPolicy.UsedWithin(page, refs[j..], 0);
      if refs[j] == page {
        next := j;
        return;
      }
      j := j + 1;
    }
  }

  /** The victim search: the first frame never used again, else the one used last. */
  method SelectVictim(frames: array<Page>, refs: seq<Page>, k: nat) returns (found: nat)
    requires k < |refs| && frames.Length >= 1
    ensures found == OptPolicy.Victim(frames[..], refs[k + 1..], frames.Length)
  {
    found := 0;
    var furthest := -1;
    ghost var future := refs[k + 1..];
    var i := 0;
    while i < frames.Length
      invariant 0 <= i <= frames.Length
      invariant i == 0 ==> found == 0 && furthest == -1
      invariant i > 0 ==> found == OptPolicy.Victim(frames[..], future, i)
      invariant i > 0 ==> furthest == k + 1 + OptPolicy.NextUse(frames[found], future) < |refs|
    {
      var next := NextReferenceTo(refs, k, frames[i]);
      if next == -1 {
        found := i;
        NothingLater(frames[..], future, i, frames.Length);
        return;
      }
      OptPolicy.UsedWithin(frames[i], future, 0);
      if next > furthest {
        furthest := next;
        found := i;
      }
      i := i + 1;
    }
  }

  /** A frame never used again stays the victim whatever comes after it. */
  lemma {:induction false} NothingLater(frames: seq<Page>, future: seq<Page>, i: nat, n: nat)
    requires i < n <= |frames|
    requires OptPolicy.NextUse(frames[i], future) == |future|
    requires i > 0 ==> OptPolicy.NextUse(frames[OptPolicy.Victim(frames, future, i)], future) < |future|
    ensures OptPolicy.Victim(frames, future, n) == i
  {
    if i + 1 < n {
      NothingLater(frames, future, i, n - 1);
      OptPolicy.UsedWithin(frames[n - 1], future, 0);
    }
  }

  method SimulateOpt(F: nat, refs: seq<Page>) returns (faults: nat)
    requires 1 <= F
    ensures faults == PageFaults(Opt, F, Served(F, refs))
    ensures NonNegative(refs) ==> faults == PageFaults(Opt, F, refs)
  {
    hide OptPolicy.After, OptPolicy.Victim, FaultsUpTo, Strip;
    var frames := new Page[F](_ => EMPTY);
    faults := 0;
    var filled: nat := 0;
    ghost var s := Served(F, refs);
    Start(Opt, F, refs);
    PlainInput(F, refs);
    for k := 0 to |refs|
      invariant Position(F, refs, k) <= |s|
      invariant HoldsPages(frames[..], filled, OptPolicy.After(F, s, Position(F, refs, k)))
      invariant faults == FaultsUpTo(Opt, F, s, Position(F, refs, k))
    {
      var p := refs[k];
      ghost var at := Position(F, refs, k);
      NextReference(Opt, F, refs, k);
      PagesMember(frames[..], filled, OptPolicy.After(F, s, at), p);
      if at < |s| {
        FaultStep(Opt, F, s, at);
        OptIteration(F, s, at, frames[..], filled);
      }
      var hit := FindInFrames(frames, p);
      if hit != -1 { continue; }
      faults := faults + 1;
      if filled < F {
        frames[filled] := p;
        filled := filled + 1;
        continue;
      }
      RestOfInput(F, refs, k);
      var found := SelectVictim(frames, refs, k);
      frames[found] := p;
    }
  }

  // ---------------------------------------------------------------- LRU

  /** `order` lists the frames of the stack's pages; a later timestamp means more recently used. */
  ghost predicate HoldsStack(frames: seq<Page>, last: seq<int>, filled: nat, stack: seq<Page>, order: seq<int>, now: int) {
    && |last| == |frames| && filled <= |frames|
    && |order| == |stack| == filled
    && (forall i :: filled <= i < |frames| ==> frames[i] == EMPTY)
    && (forall i :: 0 <= i < filled ==> last[i] < now)
    && (forall a :: 0 <= a < filled ==> 0 <= order[a] < filled && frames[order[a]] == stack[a])
    && (forall a, b :: 0 <= a < b < filled ==> last[order[a]] > last[order[b]])
  }

  /** Every occupied frame is listed. */
  lemma OrderIsOnto(frames: seq<Page>, last: seq<int>, filled: nat, stack: seq<Page>, order: seq<int>, now: int, i: int)
    requires HoldsStack(frames, last, filled, stack, order, now)
    requires 0 <= i < filled
    ensures i in order
  {
    assert Distinct(order);
    Pigeonhole(order, filled, i);
  }

  lemma StackMember(frames: seq<Page>, last: seq<int>, filled: nat, stack: seq<Page>, order: seq<int>, now: int, p: Page)
    requires HoldsStack(frames, last, filled, stack, order, now)
    ensures forall i :: 0 <= i < filled ==> frames[i] in stack
    ensures p in frames <==> p in stack || (p == EMPTY && filled < |frames|)
  {
    forall i | 0 <= i < filled ensures frames[i] in stack {
      OrderIsOnto(frames, last, filled, stack, order, now, i);
      var a :| 0 <= a < filled && order[a] == i;
      assert stack[a] == frames[i];
    }
    if filled < |frames| {
      assert frames[filled] == EMPTY;
    }
  }

  lemma {:induction false} RemoveAt(l: seq<int>, a: nat)
    requires a < |l| && Distinct(l)
    ensures LruPolicy.Remove(l, l[a]) == l[..a] + l[a + 1..]
  {
    if a > 0 {
      var rest := l[1..];
      assert l[0] != l[a] && rest[a - 1] == l[a];
      RemoveAt(rest, a - 1);
      assert l[..a] == [l[0]] + rest[..a - 1] && l[a + 1..] == rest[a..];
      assert [l[0]] + (rest[..a - 1] + rest[a..]) == l[..a] + l[a + 1..];
    }
  }

  lemma StackHit(frames: seq<Page>, last: seq<int>, filled: nat, stack: seq<Page>, order: seq<int>, now: int, i: nat)
    returns (order': seq<int>)
    requires HoldsStack(frames, last, filled, stack, order, now) && Distinct(stack)
    requires i < filled
    ensures HoldsStack(frames, last[i := now], filled, [frames[i]] + LruPolicy.Remove(stack, frames[i]), order', now + 1)
  {
    hide LruPolicy.Remove;
    OrderIsOnto(frames, last, filled, stack, order, now, i);
    var a :| 0 <= a < filled && order[a] == i;
    assert stack[a] == frames[i];
    RemoveAt(stack, a);
    order' := MoveToFront(frames, last, filled, stack, order, now, a);
    assert [stack[a]] + (stack[..a] + stack[a + 1..]) == [stack[a]] + stack[..a] + stack[a + 1..];
  }

  lemma MoveToFront(frames: seq<Page>, last: seq<int>, filled: nat, stack: seq<Page>, order: seq<int>, now: int, a: nat)
    returns (order': seq<int>)
    requires HoldsStack(frames, last, filled, stack, order, now)
    requires a < filled
    ensures HoldsStack(frames, last[order[a] := now], filled, [stack[a]] + stack[..a] + stack[a + 1..], order', now + 1)
  {
    order' := [order[a]] + order[..a] + order[a + 1..];
    var stack' := [stack[a]] + stack[..a] + stack[a + 1..];
    forall b | 0 <= b < filled
      ensures var c := if b == 0 then a else if b <= a then b - 1 else b;
              order'[b] == order[c] && stack'[b] == stack[c]
    {}
  }

  lemma StackFill(frames: seq<Page>, last: seq<int>, filled: nat, stack: seq<Page>, order: seq<int>, now: int, p: Page)
    returns (order': seq<int>)
    requires HoldsStack(frames, last, filled, stack, order, now)
    requires filled < |frames|
    ensures HoldsStack(frames[filled := p], last[filled := now], filled + 1, [p] + stack, order', now + 1)
  {
    order' := [filled] + order;
  }

  lemma StackReplace(frames: seq<Page>, last: seq<int>, filled: nat, stack: seq<Page>, order: seq<int>, now: int, v: nat, p: Page)
    returns (order': seq<int>)
    requires HoldsStack(frames, last, filled, stack, order, now)
    requires v < filled == |frames|
    requires forall i :: 0 <= i < filled ==> last[v] <= last[i]
    ensures HoldsStack(frames[v := p], last[v := now], filled, [p] + stack[..filled - 1], order', now + 1)
  {
    OrderIsOnto(frames, last, filled, stack, order, now, v);
    assert order[filled - 1] == v;
    order' := [v] + order[..filled - 1];
  }

  /** The frame with the smallest timestamp. */
  method LeastRecent(last: array<int>) returns (victim: nat)
    requires last.Length >= 1
    ensures victim < last.Length
    ensures forall i :: 0 <= i < last.Length ==> last[victim] <= last[i]
    ensures forall i :: 0 <= i < victim ==> last[victim] < last[i]
  {
    victim := 0;
    for i := 1 to last.Length
      invariant victim < i
      invariant forall j :: 0 <= j < i ==> last[victim] <= last[j]
      invariant forall j :: 0 <= j < victim ==> last[victim] < last[j]
    {
      if last[i] < last[victim] {
        victim := i;
      }
    }
  }

  /** The policy's next stack, once frame i has been touched. */
  lemma LruIteration(F: nat, s: seq<Page>, k: nat, frames: seq<Page>, last: seq<int>, filled: nat,
                     order: seq<int>, now: int, i: nat) returns (order': seq<int>)
    requires 1 <= F == |frames| && k < |s| && i < F
    requires HoldsStack(frames, last, filled, LruPolicy.After(F, s, k), order, now)
    requires s[k] in LruPolicy.After(F, s, k) ==> i < filled && frames[i] == s[k]
    requires s[k] !in LruPolicy.After(F, s, k) && filled < F ==> i == filled
    requires s[k] !in LruPolicy.After(F, s, k) && filled == F ==> forall j :: 0 <= j < F ==> last[i] <= last[j]
    ensures var filled' := if s[k] !in LruPolicy.After(F, s, k) && filled < F then filled + 1 else filled;
            HoldsStack(frames[i := s[k]], last[i := now], filled', LruPolicy.After(F, s, k + 1), order', now + 1)
  {
    var p, stack := s[k], LruPolicy.After(F, s, k);
    if p in stack {
      LruPolicy.StackSize(F, s, k);
      order' := StackHit(frames, last, filled, stack, order, now, i);
      assert frames[i := p] == frames;
    } else if filled < F {
      order' := StackFill(frames, last, filled, stack, order, now, p);
    } else {
      order' := StackReplace(frames, last, filled, stack, order, now, i, p);
    }
  }

  /** The stack just before input position t. */
  ghost function StackAt(F: nat, refs: seq<Page>, t: nat): seq<Page>
    requires 1 <= F && t <= |refs|
  {
    PositionBound(F, refs, t);
    LruPolicy.After(F, Served(F, refs), Position(F, refs, t))
  }

  /** The frame the loop touches: the one found, the next unused one, or the least recently used. */
  ghost predicate Touched(frames: seq<Page>, last: seq<int>, filled: nat, p: Page, i: nat) {
    && |frames| == |last| && i < |frames|
    && if p in frames then frames[i] == p
       else if filled < |frames| then i == filled
       else forall j :: 0 <= j < |frames| ==> last[i] <= last[j]
  }

  lemma StackStart(F: nat, refs: seq<Page>, frames: seq<Page>, last: seq<int>)
    requires 1 <= F && |frames| == |last| && forall i :: 0 <= i < |frames| ==> frames[i] == EMPTY
    ensures HoldsStack(frames, last, 0, StackAt(F, refs, 0), [], 0)
  {
    Start(Lru, F, refs);
  }

  lemma StackShape(frames: seq<Page>, last: seq<int>, filled: nat, stack: seq<Page>, order: seq<int>, now: int)
    requires HoldsStack(frames, last, filled, stack, order, now)
    ensures |last| == |frames| && |stack| == filled <= |frames|
    ensures forall i :: filled <= i < |frames| ==> frames[i] == EMPTY
  {}

  /** A lost reference stamps an unused frame. */
  lemma StackLost(frames: seq<Page>, last: seq<int>, filled: nat, stack: seq<Page>, order: seq<int>, now: int, i: nat)
    requires HoldsStack(frames, last, filled, stack, order, now) && filled <= i < |frames|
    ensures HoldsStack(frames, last[i := now], filled, stack, order, now + 1)
  {}

  /** One iteration of the loop. */
  lemma LruTurn(F: nat, refs: seq<Page>, t: nat, frames: seq<Page>, last: seq<int>, filled: nat, order: seq<int>, i: nat)
    returns (order': seq<int>)
    requires 1 <= F == |frames| && t < |refs|
    requires HoldsStack(frames, last, filled, StackAt(F, refs, t), order, t)
    requires Touched(frames, last, filled, refs[t], i)
    ensures var filled' := if refs[t] !in frames && filled < F then filled + 1 else filled;
            HoldsStack(frames[i := refs[t]], last[i := t], filled', StackAt(F, refs, t + 1), order', t + 1)
    ensures FaultsAt(Lru, F, refs, t + 1) == FaultsAt(Lru, F, refs, t) + if refs[t] in frames then 0 else 1
  {
    hide LruPolicy.After, FaultsUpTo, Strip, HoldsStack, Distinct;
    var s, k, p := Served(F, refs), Position(F, refs, t), refs[t];
    NextReference(Lru, F, refs, t);
    StackShape(frames, last, filled, StackAt(F, refs, t), order, t);
    StackMember(frames, last, filled, StackAt(F, refs, t), order, t, p);
    if p == EMPTY && filled < F {
      order' := order;
      StackLost(frames, last, filled, StackAt(F, refs, t), order, t, i);
      assert frames[i := p] == frames;
    } else {
      FaultStep(Lru, F, s, k);
      order' := LruIteration(F, s, k, frames, last, filled, order, t, i);
    }
  }

  method SimulateLru(F: nat, refs: seq<Page>) returns (faults: nat)
    requires 1 <= F
    ensures faults == PageFaults(Lru, F, Served(F, refs))
    ensures NonNegative(refs) ==> faults == PageFaults(Lru, F, refs)
  {
    hide StackAt, FaultsAt, HoldsStack, PageFaults, Served;
    var frames := new Page[F](_ => EMPTY);
    var last := new int[F](_ => -1);
    faults := 0;
    var filled: nat := 0;
    ghost var order: seq<int> := [];
    StackStart(F, refs, frames[..], last[..]);
    NoFaultsAtStart(Lru, F, refs);
    PlainInput(F, refs);
    for t := 0 to |refs|
      invariant HoldsStack(frames[..], last[..], filled, StackAt(F, refs, t), order, t)
      invariant faults == FaultsAt(Lru, F, refs, t)
    {
      var p := refs[t];
      ghost var pages, stamps := frames[..], last[..];
      StackShape(pages, stamps, filled, StackAt(F, refs, t), order, t);
      var idx := FindInFrames(frames, p);
      if idx != -1 {
        assert pages[idx] == p;
        order := LruTurn(F, refs, t, pages, stamps, filled, order, idx);
        last[idx] := t;
        assert pages[idx := p] == pages && last[..] == stamps[idx := t];
        continue;
      }
      faults := faults + 1;
      if filled < F {
        order := LruTurn(F, refs, t, pages, stamps, filled, order, filled);
        frames[filled] := p;
        last[filled] := t;
        assert frames[..] == pages[filled := p] && last[..] == stamps[filled := t];
        filled := filled + 1;
      } else {
        var victim := LeastRecent(last);
        assert forall j :: 0 <= j < F ==> stamps[j] == last[j];
        order := LruTurn(F, refs, t, pages, stamps, filled, order, victim);
        frames[victim] := p;
        last[victim] := t;
        assert frames[..] == pages[victim := p] && last[..] == stamps[victim := t];
      }
    }
    AllFaultsAtEnd(Lru, F, refs);
  }

  // ---------------------------------------------------------------- Clock

  /** The frame j places ahead of the hand. */
  function Ahead(F: nat, hand: nat, j: nat): (i: nat)
    requires hand < F && j < F
    ensures i < F
  {
    if hand + j < F then hand + j else hand + j - F
  }

  ghost predicate HoldsClock(frames: seq<Page>, bits: seq<bool>, filled: nat, hand: nat, clock: seq<ClockPolicy.Slot>) {
    && |bits| == |frames| && filled <= |frames| && hand < |frames|
    && (filled < |frames| ==> hand == 0)
    && (forall i :: filled <= i < |frames| ==> frames[i] == EMPTY)
    && |clock| == filled
    && forall j :: 0 <= j < filled ==>
         clock[j] == ClockPolicy.Slot(frames[Ahead(|frames|, hand, j)], bits[Ahead(|frames|, hand, j)])
  }

  /** The place in clock order of frame i. */
  lemma ClockPlace(frames: seq<Page>, bits: seq<bool>, filled: nat, hand: nat, clock: seq<ClockPolicy.Slot>, i: nat)
    returns (j: nat)
    requires HoldsClock(frames, bits, filled, hand, clock) && i < filled
    ensures j < filled && Ahead(|frames|, hand, j) == i
    ensures clock[j].page == frames[i] && ClockPolicy.Pages(clock)[j] == frames[i]
  {
    j := if hand <= i then i - hand else i + |frames| - hand;
    ClockPolicy.PageAt(clock, j);
  }

  lemma ClockMember(frames: seq<Page>, bits: seq<bool>, filled: nat, hand: nat, clock: seq<ClockPolicy.Slot>, p: Page)
    requires HoldsClock(frames, bits, filled, hand, clock)
    ensures forall i :: 0 <= i < filled ==> frames[i] in ClockPolicy.Pages(clock)
    ensures p in frames <==> p in ClockPolicy.Pages(clock) || (p == EMPTY && filled < |frames|)
  {
    forall i | 0 <= i < filled ensures frames[i] in ClockPolicy.Pages(clock) {
      var j := ClockPlace(frames, bits, filled, hand, clock, i);
    }
    if filled < |frames| {
      assert frames[filled] == EMPTY;
    }
    if p in ClockPolicy.Pages(clock) {
      var j :| 0 <= j < |clock| && ClockPolicy.Pages(clock)[j] == p;
      ClockPolicy.PageAt(clock, j);
      assert frames[Ahead(|frames|, hand, j)] == p;
    }
  }

  lemma {:induction false} MarkExactly(clock: seq<ClockPolicy.Slot>, p: Page, a: nat, j: nat)
    requires Distinct(ClockPolicy.Pages(clock)) && a < |clock| && j < |clock| && clock[a].page == p
    ensures |ClockPolicy.Mark(clock, p)| == |clock|
    ensures ClockPolicy.Mark(clock, p)[j] == if j == a then ClockPolicy.Slot(p, true) else clock[j]
  {
    ClockPolicy.PageAt(clock, a);
    ClockPolicy.PageAt(clock, 0);
    if a > 0 {
      assert ClockPolicy.Pages(clock)[1..] == ClockPolicy.Pages(clock[1..]);
      MarkExactly(clock[1..], p, a - 1, if j > 0 then j - 1 else 0);
    }
  }

  lemma ClockHit(frames: seq<Page>, bits: seq<bool>, filled: nat, hand: nat, clock: seq<ClockPolicy.Slot>, i: nat)
    requires HoldsClock(frames, bits, filled, hand, clock) && Distinct(ClockPolicy.Pages(clock)) && i < filled
    ensures HoldsClock(frames, bits[i := true], filled, hand, ClockPolicy.Mark(clock, frames[i]))
  {
    var a := ClockPlace(frames, bits, filled, hand, clock, i);
    MarkExactly(clock, frames[i], a, a);
    forall j | 0 <= j < filled
      ensures ClockPolicy.Mark(clock, frames[i])[j]
           == ClockPolicy.Slot(frames[Ahead(|frames|, hand, j)], bits[i := true][Ahead(|frames|, hand, j)])
    {
      MarkExactly(clock, frames[i], a, j);
    }
  }

  lemma ClockFill(frames: seq<Page>, bits: seq<bool>, filled: nat, hand: nat, clock: seq<ClockPolicy.Slot>, p: Page)
    requires HoldsClock(frames, bits, filled, hand, clock) && filled < |frames|
    ensures HoldsClock(frames[filled := p], bits[filled := true], filled + 1, hand, clock + [ClockPolicy.Slot(p, true)])
  {}

  /** Rewriting the frame under the hand and moving on sends it to the back of the order. */
  lemma ClockTurn(frames: seq<Page>, bits: seq<bool>, hand: nat, clock: seq<ClockPolicy.Slot>, q: Page, bit: bool)
    requires HoldsClock(frames, bits, |frames|, hand, clock)
    ensures HoldsClock(frames[hand := q], bits[hand := bit], |frames|, (hand + 1) % |frames|,
                       clock[1..] + [ClockPolicy.Slot(q, bit)])
  {
    var F := |frames|;
    WrapAround(hand, F);
    var next := (hand + 1) % F;
    forall j | 0 <= j < F
      ensures j < F - 1 ==> Ahead(F, next, j) == Ahead(F, hand, j + 1) && Ahead(F, hand, j + 1) != hand
      ensures j == F - 1 ==> Ahead(F, next, j) == hand
    {}
  }

  /** The victim search; also counts the movements of the hand. */
  method ReplaceClock(frames: array<Page>, refb: array<bool>, hand0: nat, p: Page, ghost clock0: seq<ClockPolicy.Slot>)
    returns (hand: nat, ghost steps: nat)
    requires HoldsClock(frames[..], refb[..], frames.Length, hand0, clock0)
    modifies frames, refb
    ensures HoldsClock(frames[..], refb[..], frames.Length, hand, ClockPolicy.Replace(clock0, p))
    ensures steps == ClockPolicy.HandSteps(clock0)
  {
    hand := hand0;
    steps := 0;
    ghost var clock := clock0;
    while true
      invariant HoldsClock(frames[..], refb[..], frames.Length, hand, clock)
      invariant ClockPolicy.Replace(clock, p) == ClockPolicy.Replace(clock0, p)
      invariant steps + ClockPolicy.HandSteps(clock) == ClockPolicy.HandSteps(clock0)
      decreases ClockPolicy.SetBits(clock)
    {
      steps := steps + 1;
      if !refb[hand] {
        ClockTurn(frames[..], refb[..], hand, clock, p, true);
        frames[hand] := p;
        refb[hand] := true;
        hand := (hand + 1) % frames.Length;
        break;
      } else {
        ClockPolicy.AdvanceClears(clock);
        ClockTurn(frames[..], refb[..], hand, clock, frames[hand], false);
        refb[hand] := false;
        hand := (hand + 1) % frames.Length;
        clock := ClockPolicy.Advance(clock);
      }
    }
  }

  /** The clock just before input position t. */
  ghost function ClockAt(F: nat, refs: seq<Page>, t: nat): seq<ClockPolicy.Slot>
    requires 1 <= F && t <= |refs|
  {
    PositionBound(F, refs, t);
    ClockPolicy.After(F, Served(F, refs), Position(F, refs, t))
  }

  /** Hand movements before input position t. */
  ghost function StepsAt(F: nat, refs: seq<Page>, t: nat): nat
    requires 1 <= F && t <= |refs|
  {
    PositionBound(F, refs, t);
    TotalHandSteps(F, Served(F, refs), Position(F, refs, t))
  }

  lemma ClockStart(F: nat, refs: seq<Page>, frames: seq<Page>, bits: seq<bool>)
    requires 1 <= F == |frames| == |bits| && forall i :: 0 <= i < F ==> frames[i] == EMPTY
    ensures HoldsClock(frames, bits, 0, 0, ClockAt(F, refs, 0)) && StepsAt(F, refs, 0) == 0
  {
    Start(Clock, F, refs);
  }

  lemma ClockShape(frames: seq<Page>, bits: seq<bool>, filled: nat, hand: nat, clock: seq<ClockPolicy.Slot>)
    requires HoldsClock(frames, bits, filled, hand, clock)
    ensures |bits| == |frames| && |clock| == filled <= |frames|
    ensures forall i :: filled <= i < |frames| ==> frames[i] == EMPTY
  {}

  /** A lost reference marks an unused frame. */
  lemma ClockLost(frames: seq<Page>, bits: seq<bool>, filled: nat, hand: nat, clock: seq<ClockPolicy.Slot>, i: nat)
    requires HoldsClock(frames, bits, filled, hand, clock) && filled <= i < |frames|
    ensures HoldsClock(frames, bits[i := true], filled, hand, clock)
  {}

  /** What the next input does to the policy's clock, its faults and its hand. */
  lemma ClockTurnOf(F: nat, refs: seq<Page>, t: nat, frames: seq<Page>, bits: seq<bool>, filled: nat, hand: nat)
    requires 1 <= F == |frames| && t < |refs|
    requires HoldsClock(frames, bits, filled, hand, ClockAt(F, refs, t))
    ensures var clock, p := ClockAt(F, refs, t), refs[t];
            && Distinct(ClockPolicy.Pages(clock)) && |clock| == filled
            && (p in frames <==> p in ClockPolicy.Pages(clock) || (p == EMPTY && filled < F))
            && (p == EMPTY && filled < F ==> p !in ClockPolicy.Pages(clock))
            && ClockAt(F, refs, t + 1) == (if p == EMPTY && filled < F then clock else ClockPolicy.Step(F, clock, p))
            && FaultsAt(Clock, F, refs, t + 1) == FaultsAt(Clock, F, refs, t) + (if p in frames then 0 else 1)
            && StepsAt(F, refs, t + 1)
            == StepsAt(F, refs, t) + if p in frames || filled < F then 0 else ClockPolicy.HandSteps(clock)
  {
    hide ClockPolicy.After, FaultsUpTo, Strip, TotalHandSteps, ClockPolicy.Replace, ClockPolicy.HandSteps, HoldsClock;
    var s, k, p := Served(F, refs), Position(F, refs, t), refs[t];
    NextReference(Clock, F, refs, t);
    ClockShape(frames, bits, filled, hand, ClockAt(F, refs, t));
    ClockMember(frames, bits, filled, hand, ClockAt(F, refs, t), p);
    ClockPolicy.ClockDistinct(F, s, k);
    if !(p == EMPTY && filled < F) {
      FaultStep(Clock, F, s, k);
      ClockIteration(F, s, k);
    }
  }

  lemma ClockHitAt(F: nat, refs: seq<Page>, t: nat, frames: seq<Page>, bits: seq<bool>, filled: nat, hand: nat, i: nat)
    requires 1 <= F == |frames| && t < |refs|
    requires HoldsClock(frames, bits, filled, hand, ClockAt(F, refs, t)) && i < |frames| && frames[i] == refs[t]
    ensures i < |bits| && HoldsClock(frames, bits[i := true], filled, hand, ClockAt(F, refs, t + 1))
  {
    hide HoldsClock, ClockAt, FaultsAt, StepsAt, ClockPolicy.Mark, ClockPolicy.Pages, ClockPolicy.Replace, Distinct;
    var clock := ClockAt(F, refs, t);
    ClockTurnOf(F, refs, t, frames, bits, filled, hand);
    ClockShape(frames, bits, filled, hand, clock);
    ClockMember(frames, bits, filled, hand, clock, refs[t]);
    if i < filled {
      ClockHit(frames, bits, filled, hand, clock, i);
    } else {
      ClockLost(frames, bits, filled, hand, clock, i);
    }
  }

  lemma ClockFillAt(F: nat, refs: seq<Page>, t: nat, frames: seq<Page>, bits: seq<bool>, filled: nat, hand: nat)
    requires 1 <= F == |frames| && t < |refs|
    requires HoldsClock(frames, bits, filled, hand, ClockAt(F, refs, t)) && refs[t] !in frames && filled < F
    ensures |bits| == F
    ensures HoldsClock(frames[filled := refs[t]], bits[filled := true], filled + 1, hand, ClockAt(F, refs, t + 1))
  {
    hide HoldsClock, ClockAt, FaultsAt, StepsAt, ClockPolicy.Mark, ClockPolicy.Pages, ClockPolicy.Replace, Distinct;
    ClockTurnOf(F, refs, t, frames, bits, filled, hand);
    ClockShape(frames, bits, filled, hand, ClockAt(F, refs, t));
    ClockFill(frames, bits, filled, hand, ClockAt(F, refs, t), refs[t]);
  }

  method SimulateClock(F: nat, refs: seq<Page>) returns (faults: nat, ghost handSteps: nat)
    requires 1 <= F
    ensures faults == PageFaults(Clock, F, Served(F, refs))
    ensures NonNegative(refs) ==> faults == PageFaults(Clock, F, refs)
    ensures handSteps == TotalHandSteps(F, Served(F, refs), |Served(F, refs)|) <= |refs| + faults
  {
    hide ClockAt, StepsAt, FaultsAt, HoldsClock, PageFaults, Served, TotalHandSteps, Distinct,
      ClockPolicy.Replace, ClockPolicy.HandSteps, ClockPolicy.Pages, ClockPolicy.Mark;
    var frames := new Page[F](_ => EMPTY);
    var refb := new bool[F](_ => false);
    faults, handSteps := 0, 0;
    var hand: nat, filled: nat := 0, 0;
    ClockStart(F, refs, frames[..], refb[..]);
    NoFaultsAtStart(Clock, F, refs);
    PlainInput(F, refs);
    for t := 0 to |refs|
      invariant HoldsClock(frames[..], refb[..], filled, hand, ClockAt(F, refs, t))
      invariant faults == FaultsAt(Clock, F, refs, t)
      invariant handSteps == StepsAt(F, refs, t)
    {
      var p := refs[t];
      ghost var pages, bits := frames[..], refb[..];
      ClockShape(pages, bits, filled, hand, ClockAt(F, refs, t));
      ClockTurnOf(F, refs, t, pages, bits, filled, hand);
      var idx := FindInFrames(frames, p);
      if idx != -1 {
        ClockHitAt(F, refs, t, pages, bits, filled, hand, idx);
        refb[idx] := true;
        assert refb[..] == bits[idx := true];
        continue;
      }
      faults := faults + 1;
      if filled < F {
        ClockFillAt(F, refs, t, pages, bits, filled, hand);
        frames[filled] := p;
        refb[filled] := true;
        assert frames[..] == pages[filled := p] && refb[..] == bits[filled := true];
        filled := filled + 1;
      } else {
        ghost var steps;
        hand, steps := ReplaceClock(frames, refb, hand, p, ClockAt(F, refs, t));
        handSteps := handSteps + steps;
      }
    }
    AllFaultsAtEnd(Clock, F, refs);
    AllStepsAtEnd(F, refs);
  }

  lemma AllStepsAtEnd(F: nat, refs: seq<Page>)
    requires 1 <= F
    ensures StepsAt(F, refs, |refs|) == TotalHandSteps(F, Served(F, refs), |Served(F, refs)|)
    ensures StepsAt(F, refs, |refs|) <= |refs| + PageFaults(Clock, F, Served(F, refs))
  {
    HandStepsAmortised(F, Served(F, refs), |Served(F, refs)|);
  }

  lemma ClockIteration(F: nat, s: seq<Page>, k: nat)
    requires 1 <= F && k < |s|
    ensures var clock, p := ClockPolicy.After(F, s, k), s[k];
            && ClockPolicy.After(F, s, k + 1) == ClockPolicy.Step(F, clock, p)
            && TotalHandSteps(F, s, k + 1) == TotalHandSteps(F, s, k)
               + if p in ClockPolicy.Pages(clock) || |clock| < F then 0 else ClockPolicy.HandSteps(clock)
  {}

  // ---------------------------------------------------------------- all four

  /** The comparison the program prints: OPT never loses, and nobody loses by more than a factor F. */
  method CompareAll(F: nat, refs: seq<Page>) returns (opt: nat, fifo: nat, lru: nat, clock: nat)
    requires 1 <= F
    ensures opt <= fifo <= F * opt
    ensures opt <= lru <= F * opt
    ensures opt <= clock <= F * opt
    ensures forall ds :: Schedule(F, Served(F, refs), ds) ==> opt <= Faults(Served(F, refs), ds, 0, |Served(F, refs)|)
    ensures forall ds :: Schedule(F, refs, ds) ==> opt <= Faults(refs, ds, 0, |refs|)
    ensures lru == PageFaults(Lru, F, Served(F, refs)) && fifo == PageFaults(Fifo, F, Served(F, refs))
    ensures clock == PageFaults(Clock, F, Served(F, refs)) && opt == PageFaults(Opt, F, Served(F, refs))
    ensures NonNegative(refs) ==> Served(F, refs) == refs
  {
    hide FaultsUpTo, PageFaults, Strip;
    ghost var s := Served(F, refs);
    PlainInput(F, refs);
    opt := SimulateOpt(F, refs);
    fifo := SimulateFifo(F, refs);
    lru := SimulateLru(F, refs);
    ghost var handSteps;
    clock, handSteps := SimulateClock(F, refs);
    forall pol: Policy | !pol.Opt?
      ensures PageFaults(Opt, F, s) <= PageFaults(pol, F, s) <= F * PageFaults(Opt, F, s)
    {
      Ranking(pol, F, s);
    }
    forall ds | Schedule(F, s, ds) ensures opt <= Faults(s, ds, 0, |s|) {
      OptIsOptimal(F, s, ds);
    }
    forall ds | Schedule(F, refs, ds) ensures opt <= Faults(refs, ds, 0, |refs|) {
      OptNeverOvercounts(F, refs, ds);
    }
  }

  lemma Ranking(pol: Policy, F: nat, s: seq<Page>)
    requires 1 <= F && !pol.Opt?
    ensures PageFaults(Opt, F, s) <= PageFaults(pol, F, s) <= F * PageFaults(Opt, F, s)
  {
    hide FaultsUpTo, PageFaults;
    OptBeatsEveryPolicy(pol, F, s);
    IsSchedule(Opt, F, s);
    OnlinePoliciesCompetitive(pol, F, s, Caches(Opt, F, s, |s|));
  }
}

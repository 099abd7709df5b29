/** walk_process_tree: a traversal that keeps no stack but finds its way back through the parent links. */
module ProcessWalk {

  const NONE: int := -1

  /** The links the walk follows; siblings and first children end in NONE, threads run in a circle. */
  datatype Task = Task(groupLeader: int, realParent: int, nextThread: int, firstChild: int, nextSibling: int)

  /** A visitor may remember everything it has seen: it is given all earlier visits. */
  type Visitor = (seq<int>, int) -> int

  // ---------------------------------------------------------------- the tree and its recursive walk

  /** A child list, each child with its thread group. */
  datatype Kids = NoKids | Kid(task: int, group: Threads, rest: Kids)

  /** A thread group, each thread with its children. */
  datatype Threads = NoThreads | Thread(id: int, kids: Kids, rest: Threads)

  datatype Walked = Walked(log: seq<int>, stopped: bool)

  /** Recursive preorder: 0 skips the subtree, a negative result stops everything. */
  function WalkKids(visit: Visitor, log: seq<int>, kids: Kids): Walked
    decreases kids
  {
    match kids
    case NoKids => Walked(log, false)
    case Kid(t, group, rest) =>
      var res := visit(log, t);
      var seen := log + [t];
      if res < 0 then Walked(seen, true)
      else if res == 0 then WalkKids(visit, seen, rest)
      else
        var below := WalkThreads(visit, seen, group);
        if below.stopped then below else WalkKids(visit, below.log, rest)
  }

  function WalkThreads(visit: Visitor, log: seq<int>, threads: Threads): Walked
    decreases threads
  {
    match threads
    case NoThreads => Walked(log, false)
    case Thread(_, kids, rest) =>
      var below := WalkKids(visit, log, kids);
      if below.stopped then below else WalkThreads(visit, below.log, rest)
  }

  // ---------------------------------------------------------------- the links of a tree

  ghost predicate WiredKids(tasks: int -> Task, top: int, parent: int, kids: Kids, first: int)
    decreases kids
  {
    match kids
    case NoKids => first == NONE
    case Kid(t, group, rest) =>
      && first == t != NONE && t != top && tasks(t).realParent == parent
      && group.Thread? && group.id == t && WiredThreads(tasks, top, t, group)
      && WiredKids(tasks, top, parent, rest, tasks(t).nextSibling)
  }

  ghost predicate WiredThreads(tasks: int -> Task, top: int, leader: int, threads: Threads)
    decreases threads
  {
    match threads
    case NoThreads => true
    case Thread(id, kids, rest) =>
      && tasks(id).groupLeader == leader
      && WiredKids(tasks, top, id, kids, tasks(id).firstChild)
      && (if rest.NoThreads? then tasks(id).nextThread == leader
          else tasks(id).nextThread == rest.id != leader)
      && WiredThreads(tasks, top, leader, rest)
  }

  // ---------------------------------------------------------------- the walk

  /** The three variables of the walk, `child` being the next one to look at, and what was visited. */
  datatype State = Walking(leader: int, parent: int, child: int, log: seq<int>) | Out(log: seq<int>)

  function Step(tasks: int -> Task, top: int, visit: Visitor, s: State): State
    requires s.Walking?
  {
    if s.child != NONE then
      var res := visit(s.log, s.child);
      var seen := s.log + [s.child];
      if res < 0 then Out(seen)
      else if res > 0 then Walking(s.child, s.child, tasks(s.child).firstChild, seen)
      else Walking(s.leader, s.parent, tasks(s.child).nextSibling, seen)
    else
      var next := tasks(s.parent).nextThread;
      if next != s.leader then Walking(s.leader, next, tasks(next).firstChild, s.log)
      else if s.leader != top then
        var parent := tasks(s.leader).realParent;
        Walking(tasks(parent).groupLeader, parent, tasks(s.leader).nextSibling, s.log)
      else Out(s.log)
  }

  function Iterate(tasks: int -> Task, top: int, visit: Visitor, s: State, n: nat): State
    decreases n
  {
    if n == 0 || s.Out? then s else Iterate(tasks, top, visit, Step(tasks, top, visit, s), n - 1)
  }

  lemma {:induction false} IterateOn(tasks: int -> Task, top: int, visit: Visitor, s: State, n: nat, m: nat)
    ensures Iterate(tasks, top, visit, s, n + m) == Iterate(tasks, top, visit, Iterate(tasks, top, visit, s, n), m)
    decreases n
  {
    if n > 0 && s.Walking? {
      IterateOn(tasks, top, visit, Step(tasks, top, visit, s), n - 1, m);
    }
  }

  /** Where the walk is after a child list: out, or at its end with the same leader and parent. */
  function AfterKids(leader: int, parent: int, w: Walked): State {
    if w.stopped then Out(w.log) else Walking(leader, parent, NONE, w.log)
  }

  function LastThread(threads: Threads): int
    requires threads.Thread?
  {
    if threads.rest.NoThreads? then threads.id else LastThread(threads.rest)
  }

  lemma StepOnce(tasks: int -> Task, top: int, visit: Visitor, s: State)
    requires s.Walking?
    ensures Iterate(tasks, top, visit, s, 0) == s
    ensures Iterate(tasks, top, visit, s, 1) == Step(tasks, top, visit, s)
  {
    hide Step;
    assert Iterate(tasks, top, visit, Step(tasks, top, visit, s), 0) == Step(tasks, top, visit, s);
  }

  /** From the head of a child list the walk reaches its end, having done what the recursion does. */
  lemma {:induction false} KidsDone(tasks: int -> Task, top: int, visit: Visitor, leader: int, parent: int, kids: Kids, first: int, log: seq<int>)
    returns (n: nat)
    requires WiredKids(tasks, top, parent, kids, first) && tasks(parent).groupLeader == leader
    ensures Iterate(tasks, top, visit, Walking(leader, parent, first, log), n)
         == AfterKids(leader, parent, WalkKids(visit, log, kids))
    decreases kids, 1
  {
    hide Iterate, WalkThreads, WiredThreads;
    var s := Walking(leader, parent, first, log);
    StepOnce(tasks, top, visit, s);
    n := 0;
    if kids.Kid? {
      var res := visit(log, first);
      if res < 0 {
        n := 1;
      } else if res == 0 {
        var m := KidsDone(tasks, top, visit, leader, parent, kids.rest, tasks(first).nextSibling, log + [first]);
        IterateOn(tasks, top, visit, s, 1, m);
        n := 1 + m;
      } else {
        n := KidEntered(tasks, top, visit, leader, parent, kids, log);
      }
    }
  }

  /** The visitor said go on: the child's group first, then the rest of the list. */
  lemma {:induction false} KidEntered(tasks: int -> Task, top: int, visit: Visitor, leader: int, parent: int, kids: Kids, log: seq<int>)
    returns (n: nat)
    requires kids.Kid? && visit(log, kids.task) > 0
    requires WiredKids(tasks, top, parent, kids, kids.task) && tasks(parent).groupLeader == leader
    ensures Iterate(tasks, top, visit, Walking(leader, parent, kids.task, log), n)
         == AfterKids(leader, parent, WalkKids(visit, log, kids))
    decreases kids, 0
  {
    hide Iterate, WalkThreads, WiredThreads;
    var t, seen := kids.task, log + [kids.task];
    var s := Walking(leader, parent, t, log);
    StepOnce(tasks, top, visit, s);
    var m := GroupDone(tasks, top, visit, t, kids.group, seen);
    IterateOn(tasks, top, visit, s, 1, m);
    n := 1 + m;
    var below := WalkThreads(visit, seen, kids.group);
    if !below.stopped {
      var k := KidsDone(tasks, top, visit, leader, parent, kids.rest, tasks(t).nextSibling, below.log);
      IterateOn(tasks, top, visit, s, 1 + m, k);
      n := 1 + m + k;
    }
  }

  /** A child's whole thread group, and back up to the child's place in its parent's list. */
  lemma {:induction false} GroupDone(tasks: int -> Task, top: int, visit: Visitor, leader: int, group: Threads, log: seq<int>)
    returns (n: nat)
    requires group.Thread? && group.id == leader != top && WiredThreads(tasks, top, leader, group)
    ensures var w, parent := WalkThreads(visit, log, group), tasks(leader).realParent;
            Iterate(tasks, top, visit, Walking(leader, leader, tasks(leader).firstChild, log), n)
            == if w.stopped then Out(w.log) else Walking(tasks(parent).groupLeader, parent, tasks(leader).nextSibling, w.log)
    decreases group, 1
  {
    hide Iterate, WalkThreads, WiredThreads, LastThread;
    var m := ThreadsDone(tasks, top, visit, leader, group, log);
    var s := Walking(leader, leader, tasks(leader).firstChild, log);
    ThreadsEnd(tasks, top, leader, group);
    n := m;
    var w := WalkThreads(visit, log, group);
    if !w.stopped {
      StepOnce(tasks, top, visit, Walking(leader, LastThread(group), NONE, w.log));
      IterateOn(tasks, top, visit, s, m, 1);
      n := m + 1;
    }
  }

  lemma {:induction false} ThreadsEnd(tasks: int -> Task, top: int, leader: int, threads: Threads)
    requires threads.Thread? && WiredThreads(tasks, top, leader, threads)
    ensures tasks(LastThread(threads)).nextThread == leader
  {
    if threads.rest.Thread? {
      ThreadsEnd(tasks, top, leader, threads.rest);
    }
  }

  /** The threads of a group, one child list after the other. */
  lemma {:induction false} ThreadsDone(tasks: int -> Task, top: int, visit: Visitor, leader: int, threads: Threads, log: seq<int>)
    returns (n: nat)
    requires threads.Thread? && WiredThreads(tasks, top, leader, threads)
    ensures Iterate(tasks, top, visit, Walking(leader, threads.id, tasks(threads.id).firstChild, log), n)
         == AfterKids(leader, LastThread(threads), WalkThreads(visit, log, threads))
    decreases threads, 0
  {
    hide Iterate, WalkKids, WiredKids;
    var Thread(id, kids, rest) := threads;
    var s := Walking(leader, id, tasks(id).firstChild, log);
    n := KidsDone(tasks, top, visit, leader, id, kids, tasks(id).firstChild, log);
    var below := WalkKids(visit, log, kids);
    if rest.Thread? && !below.stopped {
      var k := ThreadsDone(tasks, top, visit, leader, rest, below.log);
      StepOnce(tasks, top, visit, Walking(leader, id, NONE, below.log));
      IterateOn(tasks, top, visit, s, n, 1);
      IterateOn(tasks, top, visit, s, n + 1, k);
      n := n + 1 + k;
    }
  }

  /** From the top the walk ends, having visited exactly what the recursive preorder visits. */
  lemma WalkIsPreorder(tasks: int -> Task, top: int, visit: Visitor, group: Threads) returns (n: nat)
    requires group.Thread? && group.id == top && WiredThreads(tasks, top, top, group)
    ensures Iterate(tasks, top, visit, Walking(top, top, tasks(top).firstChild, []), n)
         == Out(WalkThreads(visit, [], group).log)
  {
    hide Iterate, WalkThreads, WiredThreads, LastThread;
    n := ThreadsDone(tasks, top, visit, top, group, []);
    ThreadsEnd(tasks, top, top, group);
    var w := WalkThreads(visit, [], group);
    if !w.stopped {
      StepOnce(tasks, top, visit, Walking(top, LastThread(group), NONE, w.log));
      IterateOn(tasks, top, visit, Walking(top, top, tasks(top).firstChild, []), n, 1);
      n := n + 1;
    }
  }

  // ---------------------------------------------------------------- what the recursion visits

  function AllKids(kids: Kids): seq<int> {
    match kids
    case NoKids => []
    case Kid(t, group, rest) => [t] + AllThreads(group) + AllKids(rest)
  }

  /** Every descendant, each task before its own children and these before its next sibling. */
  function AllThreads(threads: Threads): seq<int> {
    match threads
    case NoThreads => []
    case Thread(_, kids, rest) => AllKids(kids) + AllThreads(rest)
  }

  /** A visitor that always says go on sees every descendant, in that order. */
  lemma {:induction false} VisitsAllKids(visit: Visitor, log: seq<int>, kids: Kids)
    requires forall l, t :: visit(l, t) > 0
    ensures WalkKids(visit, log, kids) == Walked(log + AllKids(kids), false)
    decreases kids
  {
    hide WalkThreads, AllThreads;
    match kids
    case NoKids =>
    case Kid(t, group, rest) =>
      VisitsAllThreads(visit, log + [t], group);
      VisitsAllKids(visit, log + [t] + AllThreads(group), rest);
      assert log + [t] + AllThreads(group) + AllKids(rest) == log + AllKids(kids);
  }

  lemma {:induction false} VisitsAllThreads(visit: Visitor, log: seq<int>, threads: Threads)
    requires forall l, t :: visit(l, t) > 0
    ensures WalkThreads(visit, log, threads) == Walked(log + AllThreads(threads), false)
    decreases threads
  {
    hide WalkKids, AllKids;
    match threads
    case NoThreads =>
    case Thread(_, kids, rest) =>
      VisitsAllKids(visit, log, kids);
      VisitsAllThreads(visit, log + AllKids(kids), rest);
      assert log + AllKids(kids) + AllThreads(rest) == log + AllThreads(threads);
  }

  // ---------------------------------------------------------------- what the answers do

  /** No visit of the log was answered with a negative number. */
  ghost predicate GoesOn(visit: Visitor, log: seq<int>) {
    forall i :: 0 <= i < |log| ==> visit(log[..i], log[i]) >= 0
  }

  /** A negative answer stops the walk at once, and nothing else does. */
  ghost predicate StopsRightly(visit: Visitor, w: Walked) {
    if w.stopped then
      var n := |w.log| - 1;
      n >= 0 && GoesOn(visit, w.log[..n]) && visit(w.log[..n], w.log[n]) < 0
    else GoesOn(visit, w.log)
  }

  lemma GoesOnGrows(visit: Visitor, log: seq<int>, t: int)
    requires GoesOn(visit, log) && visit(log, t) >= 0
    ensures GoesOn(visit, log + [t])
  {
    var seen := log + [t];
    forall i | 0 <= i < |seen| ensures visit(seen[..i], seen[i]) >= 0 {
      assert seen[..i] == log[..i];
      assert i == |log| ==> log[..i] == log;
    }
  }

  lemma {:induction false} KidsStopRightly(visit: Visitor, log: seq<int>, kids: Kids)
    requires GoesOn(visit, log)
    ensures StopsRightly(visit, WalkKids(visit, log, kids))
    decreases kids
  {
    hide GoesOn, WalkThreads;
    match kids
    case NoKids =>
    case Kid(t, group, rest) =>
      var seen := log + [t];
      assert seen[..|log|] == log;
      if visit(log, t) >= 0 {
        GoesOnGrows(visit, log, t);
        ThreadsStopRightly(visit, seen, group);
        var below := if visit(log, t) == 0 then Walked(seen, false) else WalkThreads(visit, seen, group);
        if !below.stopped {
          KidsStopRightly(visit, below.log, rest);
        }
      }
  }

  lemma {:induction false} ThreadsStopRightly(visit: Visitor, log: seq<int>, threads: Threads)
    requires GoesOn(visit, log)
    ensures StopsRightly(visit, WalkThreads(visit, log, threads))
    decreases threads
  {
    hide GoesOn, WalkKids;
    match threads
    case NoThreads =>
    case Thread(_, kids, rest) =>
      KidsStopRightly(visit, log, kids);
      var below := WalkKids(visit, log, kids);
      if !below.stopped {
        ThreadsStopRightly(visit, below.log, rest);
      }
  }

  /** The walk stops exactly at the first negative answer. */
  lemma StopsAtNegative(visit: Visitor, group: Threads)
    ensures var w := WalkThreads(visit, [], group);
            && (forall i :: 0 <= i < |w.log| - 1 ==> visit(w.log[..i], w.log[i]) >= 0)
            && (w.stopped <==> w.log != [] && visit(w.log[..|w.log| - 1], w.log[|w.log| - 1]) < 0)
  {
    hide WalkThreads;
    ThreadsStopRightly(visit, [], group);
    var w := WalkThreads(visit, [], group);
    if w.stopped {
      var init := w.log[..|w.log| - 1];
      forall i | 0 <= i < |w.log| - 1 ensures visit(w.log[..i], w.log[i]) >= 0 {
        assert init[..i] == w.log[..i] && init[i] == w.log[i];
      }
    }
  }

  // ---------------------------------------------------------------- who is visited

  /** A descendant in the list of all of them, and the places of its ancestors in that list. */
  datatype Item = Item(task: int, up: seq<nat>)

  function KidItems(kids: Kids, base: nat, up: seq<nat>): seq<Item>
    decreases kids
  {
    match kids
    case NoKids => []
    case Kid(t, group, rest) =>
      var below := ThreadItems(group, base + 1, up + [base]);
      [Item(t, up)] + below + KidItems(rest, base + 1 + |below|, up)
  }

  /** All descendants in preorder, numbered from `base` on, under the ancestors `up`. */
  function ThreadItems(threads: Threads, base: nat, up: seq<nat>): seq<Item>
    decreases threads
  {
    match threads
    case NoThreads => []
    case Thread(_, kids, rest) =>
      var first := KidItems(kids, base, up);
      first + ThreadItems(rest, base + |first|, up)
  }

  function Tasks(items: seq<Item>): (tasks: seq<int>)
    ensures |tasks| == |items| && forall j :: 0 <= j < |items| ==> tasks[j] == items[j].task
  {
    if items == [] then [] else Tasks(items[..|items| - 1]) + [items[|items| - 1].task]
  }

  lemma {:induction false} KidTasks(kids: Kids, base: nat, up: seq<nat>)
    ensures Tasks(KidItems(kids, base, up)) == AllKids(kids)
    decreases kids
  {
    hide ThreadItems, AllThreads, Tasks;
    match kids
    case NoKids =>
    case Kid(t, group, rest) =>
      var below := ThreadItems(group, base + 1, up + [base]);
      ThreadTasks(group, base + 1, up + [base]);
      KidTasks(rest, base + 1 + |below|, up);
  }

  /** They are the descendants that the tree has, in the order it has them. */
  lemma {:induction false} ThreadTasks(threads: Threads, base: nat, up: seq<nat>)
    ensures Tasks(ThreadItems(threads, base, up)) == AllThreads(threads)
    decreases threads
  {
    hide KidItems, AllKids, Tasks;
    match threads
    case NoThreads =>
    case Thread(_, kids, rest) =>
      KidTasks(kids, base, up);
      ThreadTasks(rest, base + |KidItems(kids, base, up)|, up);
  }

  /** The visits among the first n items, when vis tells who is visited. */
  function Picked(items: seq<Item>, vis: seq<bool>, n: nat): seq<int>
    requires n <= |vis| <= |items|
  {
    if n == 0 then [] else Picked(items, vis, n - 1) + if vis[n - 1] then [items[n - 1].task] else []
  }

  /** Item a is visited, and the answer is to go on below it. */
  predicate Entered(visit: Visitor, items: seq<Item>, vis: seq<bool>, a: nat)
    requires a < |vis| <= |items|
  {
    vis[a] && visit(Picked(items, vis, a), items[a].task) > 0
  }

  predicate AllEntered(visit: Visitor, items: seq<Item>, vis: seq<bool>, up: seq<nat>)
    requires |vis| <= |items|
  {
    forall a :: a in up ==> a < |vis| && Entered(visit, items, vis, a)
  }

  /** Item j is visited if and only if all its ancestors, which come before it, are entered. */
  predicate RightAt(visit: Visitor, items: seq<Item>, vis: seq<bool>, j: nat)
    requires j < |vis| <= |items|
  {
    vis[j] <==> AllEntered(visit, items, vis[..j], items[j].up)
  }

  ghost predicate Right(visit: Visitor, items: seq<Item>, vis: seq<bool>) {
    |vis| <= |items| && forall j :: 0 <= j < |vis| ==> RightAt(visit, items, vis, j)
  }

  lemma {:induction false} PickedPrefix(items: seq<Item>, vis: seq<bool>, more: seq<bool>, n: nat)
    requires n <= |vis| <= |more| <= |items| && vis == more[..|vis|]
    ensures Picked(items, more, n) == Picked(items, vis, n)
  {
    if n > 0 {
      PickedPrefix(items, vis, more, n - 1);
    }
  }

  lemma StaysEntered(visit: Visitor, items: seq<Item>, vis: seq<bool>, more: seq<bool>, up: seq<nat>)
    requires |vis| <= |more| <= |items| && vis == more[..|vis|] && AllEntered(visit, items, vis, up)
    ensures AllEntered(visit, items, more, up)
  {
    forall a | a in up ensures a < |more| && Entered(visit, items, more, a) {
      assert Entered(visit, items, vis, a);
      PickedPrefix(items, vis, more, a);
    }
  }

  /** Settling the next item. */
  lemma Settle(visit: Visitor, items: seq<Item>, vis: seq<bool>, b: bool)
    requires Right(visit, items, vis) && |vis| < |items|
    requires b <==> AllEntered(visit, items, vis, items[|vis|].up)
    ensures Right(visit, items, vis + [b])
    ensures Picked(items, vis + [b], |vis| + 1) == Picked(items, vis, |vis|) + if b then [items[|vis|].task] else []
  {
    hide AllEntered;
    var more := vis + [b];
    assert more[..|vis|] == vis;
    forall j | 0 <= j < |more| ensures RightAt(visit, items, more, j) {
      assert more[..j] == vis[..j];
      if j < |vis| {
        assert RightAt(visit, items, vis, j);
      } else {
        assert vis[..j] == vis;
      }
    }
    PickedPrefix(items, vis, more, |vis|);
  }

  /** `part` stands at the end of what is settled. */
  ghost predicate Next(items: seq<Item>, vis: seq<bool>, part: seq<Item>) {
    |vis| + |part| <= |items| && items[|vis|..|vis| + |part|] == part
  }

  /** Nobody is visited below an item that is not entered. */
  lemma {:induction false} SkipAll(visit: Visitor, items: seq<Item>, vis: seq<bool>, part: seq<Item>, a: nat)
    returns (more: seq<bool>)
    requires Right(visit, items, vis) && Next(items, vis, part)
    requires a < |vis| && !Entered(visit, items, vis, a) && forall j :: 0 <= j < |part| ==> a in part[j].up
    ensures Right(visit, items, more) && |more| == |vis| + |part| && more[..|vis|] == vis
    ensures Picked(items, more, |more|) == Picked(items, vis, |vis|)
    decreases |part|
  {
    hide Right, Picked;
    more := vis;
    if part != [] {
      assert items[|vis|] == part[0];
      assert !AllEntered(visit, items, vis, items[|vis|].up);
      RightLength(visit, items, vis);
      Settle(visit, items, vis, false);
      PickedPrefix(items, vis, vis + [false], a);
      assert items[|vis| + 1..|vis| + 1 + |part[1..]|] == part[1..];
      more := SkipAll(visit, items, vis + [false], part[1..], a);
      assert vis == more[..|vis| + 1][..|vis|];
    }
  }

  lemma RightLength(visit: Visitor, items: seq<Item>, vis: seq<bool>)
    requires Right(visit, items, vis)
    ensures |vis| <= |items|
  {}

  lemma {:induction false} KidsUnder(kids: Kids, base: nat, up: seq<nat>, a: nat, j: nat)
    requires a in up && j < |KidItems(kids, base, up)|
    ensures a in KidItems(kids, base, up)[j].up
    decreases kids
  {
    hide ThreadItems;
    var t, group, rest := kids.task, kids.group, kids.rest;
    var below := ThreadItems(group, base + 1, up + [base]);
    if 0 < j <= |below| {
      ThreadsUnder(group, base + 1, up + [base], a, j - 1);
    } else if j > |below| {
      KidsUnder(rest, base + 1 + |below|, up, a, j - 1 - |below|);
    }
  }

  lemma {:induction false} ThreadsUnder(threads: Threads, base: nat, up: seq<nat>, a: nat, j: nat)
    requires a in up && j < |ThreadItems(threads, base, up)|
    ensures a in ThreadItems(threads, base, up)[j].up
    decreases threads
  {
    hide KidItems;
    var first := KidItems(threads.kids, base, up);
    if j < |first| {
      KidsUnder(threads.kids, base, up, a, j);
    } else {
      ThreadsUnder(threads.rest, base + |first|, up, a, j - |first|);
    }
  }

  /** The walk has settled `more`: as far as it got, and all of `part` unless it was stopped. */
  ghost predicate Settled(visit: Visitor, items: seq<Item>, vis: seq<bool>, part: seq<Item>, w: Walked, more: seq<bool>) {
    && Right(visit, items, more) && |vis| <= |more| <= |vis| + |part| && more[..|vis|] == vis
    && w.log == Picked(items, more, |more|)
    && (!w.stopped ==> |more| == |vis| + |part|)
    && (w.stopped ==> more != [] && more[|more| - 1])
  }

  lemma NextParts(items: seq<Item>, vis: seq<bool>, a: seq<Item>, b: seq<Item>)
    requires Next(items, vis, a + b)
    ensures Next(items, vis, a)
    ensures forall more: seq<bool> :: |more| == |vis| + |a| ==> Next(items, more, b)
  {
    assert items[|vis|..|vis| + |a + b|] == a + b;
    assert a == (a + b)[..|a|] && b == (a + b)[|a|..];
  }

  lemma SettledStop(visit: Visitor, items: seq<Item>, vis: seq<bool>, a: seq<Item>, b: seq<Item>, w: Walked, more: seq<bool>)
    requires Settled(visit, items, vis, a, w, more) && w.stopped
    ensures Settled(visit, items, vis, a + b, w, more)
  {
    hide Right, Picked;
    RightLength(visit, items, more);
  }

  lemma SettledOn(visit: Visitor, items: seq<Item>, vis: seq<bool>, a: seq<Item>, b: seq<Item>, w: Walked,
                  mid: seq<bool>, w': Walked, more: seq<bool>)
    requires Settled(visit, items, vis, a, w, mid) && !w.stopped && Settled(visit, items, mid, b, w', more)
    ensures Settled(visit, items, vis, a + b, w', more)
  {
    hide Right, Picked;
    RightLength(visit, items, more);
    assert more[..|vis|] == more[..|mid|][..|vis|] == vis;
  }

  lemma {:induction false} KidsSettle(visit: Visitor, items: seq<Item>, vis: seq<bool>, kids: Kids, up: seq<nat>)
    returns (more: seq<bool>)
    requires Right(visit, items, vis) && AllEntered(visit, items, vis, up) && Next(items, vis, KidItems(kids, |vis|, up))
    ensures |vis| <= |items|
    ensures Settled(visit, items, vis, KidItems(kids, |vis|, up),
                    WalkKids(visit, Picked(items, vis, |vis|), kids), more)
    decreases kids, 1
  {
    hide Right, Picked, AllEntered, ThreadItems, WalkThreads, Next;
    RightLength(visit, items, vis);
    more := vis;
    if kids.Kid? {
      var t, log, base := kids.task, Picked(items, vis, |vis|), |vis|;
      var below := ThreadItems(kids.group, base + 1, up + [base]);
      var rest := KidItems(kids.rest, base + 1 + |below|, up);
      assert [Item(t, up)] + below + rest == [Item(t, up)] + (below + rest);
      NextParts(items, vis, [Item(t, up)], below + rest);
      var first := TaskSettles(visit, items, vis, Item(t, up));
      var w := Walked(log + [t], visit(log, t) < 0);
      if w.stopped {
        SettledStop(visit, items, vis, [Item(t, up)], below + rest, w, first);
        more := first;
      } else {
        var w', last := RestSettles(visit, items, first, kids, up);
        SettledOn(visit, items, vis, [Item(t, up)], below + rest, w, first, w', last);
        more := last;
      }
    }
  }

  lemma TaskSettles(visit: Visitor, items: seq<Item>, vis: seq<bool>, item: Item) returns (more: seq<bool>)
    requires Right(visit, items, vis) && AllEntered(visit, items, vis, item.up) && Next(items, vis, [item])
    ensures |vis| < |items| && items[|vis|] == item && more == vis + [true] && AllEntered(visit, items, more, item.up)
    ensures var log := Picked(items, vis, |vis|);
            && Settled(visit, items, vis, [item], Walked(log + [item.task], visit(log, item.task) < 0), more)
            && Picked(items, more, |vis|) == log
  {
    hide Right, Picked, AllEntered;
    assert items[|vis|..|vis| + 1][0] == items[|vis|];
    Settle(visit, items, vis, true);
    more := vis + [true];
    PickedPrefix(items, vis, more, |vis|);
    StaysEntered(visit, items, vis, more, item.up);
  }

  /** The visited child's group, entered or skipped, and the rest of the list. */
  lemma {:induction false} RestSettles(visit: Visitor, items: seq<Item>, vis: seq<bool>, kids: Kids, up: seq<nat>)
    returns (w: Walked, more: seq<bool>)
    requires kids.Kid? && 0 < |vis| <= |items| && vis[|vis| - 1]
    requires var base := |vis| - 1;
             var below := ThreadItems(kids.group, base + 1, up + [base]);
             && Right(visit, items, vis) && AllEntered(visit, items, vis, up)
             && Next(items, vis, below + KidItems(kids.rest, base + 1 + |below|, up))
             && items[base].task == kids.task
             && Picked(items, vis, |vis|) == Picked(items, vis, base) + [kids.task]
             && visit(Picked(items, vis, base), kids.task) >= 0
    ensures var base := |vis| - 1;
            var below := ThreadItems(kids.group, base + 1, up + [base]);
            && w == WalkKids(visit, Picked(items, vis, base), kids)
            && Settled(visit, items, vis, below + KidItems(kids.rest, base + 1 + |below|, up), w, more)
    decreases kids, 0
  {
    hide Right, Picked, AllEntered, ThreadItems, WalkThreads, Next, KidItems;
    var base := |vis| - 1;
    var below := ThreadItems(kids.group, base + 1, up + [base]);
    var rest := KidItems(kids.rest, base + 1 + |below|, up);
    NextParts(items, vis, below, rest);
    w, more := GroupSettles(visit, items, vis, kids, up);
    if w.stopped {
      SettledStop(visit, items, vis, below, rest, w, more);
    } else {
      RightLength(visit, items, more);
      StaysEntered(visit, items, vis, more, up);
      var last := KidsSettle(visit, items, more, kids.rest, up);
      var w' := WalkKids(visit, w.log, kids.rest);
      SettledOn(visit, items, vis, below, rest, w, more, w', last);
      w, more := w', last;
    }
  }

  lemma {:induction false} GroupSettles(visit: Visitor, items: seq<Item>, vis: seq<bool>, kids: Kids, up: seq<nat>)
    returns (w: Walked, more: seq<bool>)
    requires kids.Kid? && 0 < |vis| <= |items| && vis[|vis| - 1]
    requires var base := |vis| - 1;
             && Right(visit, items, vis) && AllEntered(visit, items, vis, up)
             && Next(items, vis, ThreadItems(kids.group, base + 1, up + [base]))
             && items[base].task == kids.task && visit(Picked(items, vis, base), kids.task) >= 0
    ensures var base, log := |vis| - 1, Picked(items, vis, |vis|);
            && w == (if visit(Picked(items, vis, base), kids.task) == 0 then Walked(log, false)
                     else WalkThreads(visit, log, kids.group))
            && Settled(visit, items, vis, ThreadItems(kids.group, base + 1, up + [base]), w, more)
    decreases kids.group, 1
  {
    hide Right, Picked, AllEntered, ThreadItems, WalkThreads, Next;
    var base := |vis| - 1;
    if visit(Picked(items, vis, base), kids.task) == 0 {
      var below := ThreadItems(kids.group, base + 1, up + [base]);
      forall j | 0 <= j < |below| ensures base in below[j].up {
        ThreadsUnder(kids.group, base + 1, up + [base], base, j);
      }
      more := SkipAll(visit, items, vis, below, base);
      w := Walked(Picked(items, vis, |vis|), false);
    } else {
      EnterBelow(visit, items, vis, up, base);
      more := ThreadsSettle(visit, items, vis, kids.group, up + [base]);
      w := WalkThreads(visit, Picked(items, vis, |vis|), kids.group);
    }
  }

  lemma EnterBelow(visit: Visitor, items: seq<Item>, vis: seq<bool>, up: seq<nat>, a: nat)
    requires a < |vis| <= |items| && AllEntered(visit, items, vis, up) && Entered(visit, items, vis, a)
    ensures AllEntered(visit, items, vis, up + [a])
  {}

  lemma {:induction false} ThreadsSettle(visit: Visitor, items: seq<Item>, vis: seq<bool>, threads: Threads, up: seq<nat>)
    returns (more: seq<bool>)
    requires Right(visit, items, vis) && AllEntered(visit, items, vis, up) && Next(items, vis, ThreadItems(threads, |vis|, up))
    ensures |vis| <= |items|
    ensures Settled(visit, items, vis, ThreadItems(threads, |vis|, up),
                    WalkThreads(visit, Picked(items, vis, |vis|), threads), more)
    decreases threads, 0
  {
    hide Right, Picked, AllEntered, KidItems, WalkKids, Next;
    RightLength(visit, items, vis);
    more := vis;
    if threads.Thread? {
      var first := KidItems(threads.kids, |vis|, up);
      var rest := ThreadItems(threads.rest, |vis| + |first|, up);
      NextParts(items, vis, first, rest);
      more := KidsSettle(visit, items, vis, threads.kids, up);
      var w := WalkKids(visit, Picked(items, vis, |vis|), threads.kids);
      if w.stopped {
        SettledStop(visit, items, vis, first, rest, w, more);
      } else {
        RightLength(visit, items, more);
        StaysEntered(visit, items, vis, more, up);
        var last := ThreadsSettle(visit, items, more, threads.rest, up);
        SettledOn(visit, items, vis, first, rest, w, more, WalkThreads(visit, w.log, threads.rest), last);
        more := last;
      }
    }
  }

  /**
   Who is visited, for every visitor and every tree: as far as the walk gets, a
   descendant is visited if and only if each of its ancestors was visited and
   answered with a positive number; and it gets to the end unless it is stopped.
   */
  lemma VisitedIffEntered(visit: Visitor, group: Threads) returns (vis: seq<bool>)
    ensures var w, items := WalkThreads(visit, [], group), ThreadItems(group, 0, []);
            && Tasks(items) == AllThreads(group)
            && Right(visit, items, vis) && w.log == Picked(items, vis, |vis|)
            && (!w.stopped ==> |vis| == |items|) && (w.stopped ==> vis != [] && vis[|vis| - 1])
  {
    hide WalkThreads, ThreadItems, AllThreads, Tasks;
    var items := ThreadItems(group, 0, []);
    ThreadTasks(group, 0, []);
    assert items[0..|items|] == items;
    vis := ThreadsSettle(visit, items, [], group, []);
  }

  // ---------------------------------------------------------------- the loop

  /** The walk with its three variables and nothing else to remember the way by. */
  method WalkProcessTree(tasks: int -> Task, start: int, visit: Visitor, ghost group: Threads) returns (log: seq<int>)
    requires group.Thread? && group.id == tasks(start).groupLeader && WiredThreads(tasks, group.id, group.id, group)
    ensures log == WalkThreads(visit, [], group).log
    ensures forall i :: 0 <= i < |log| - 1 ==> visit(log[..i], log[i]) >= 0
  {
    StopsAtNegative(visit, group);
    var top := tasks(start).groupLeader;
    var leader, parent, child := top, top, tasks(top).firstChild;
    log := [];
    ghost var left := WalkIsPreorder(tasks, top, visit, group);
    while true
      invariant Iterate(tasks, top, visit, Walking(leader, parent, child, log), left)
             == Out(WalkThreads(visit, [], group).log)
      decreases left
    {
      if child != NONE {
        var res := visit(log, child);
        log := log + [child];
        if res < 0 { return; }
        if res > 0 {
          leader, parent, child := child, child, tasks(child).firstChild;
        } else {
          child := tasks(child).nextSibling;
        }
      } else {
        parent := tasks(parent).nextThread;
        if parent != leader {
          child := tasks(parent).firstChild;
        } else if leader != top {
          child := leader;
          parent := tasks(child).realParent;
          leader := tasks(parent).groupLeader;
          child := tasks(child).nextSibling;
        } else {
          return;
        }
      }
      left := left - 1;
    }
  }
}
